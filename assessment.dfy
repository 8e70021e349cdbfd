/**
 * The server-side personality classifier `scoreAssessment`
 * (lib/assessment.ts): answers are turned into signed values, summed per
 * dimension, each dimension is resolved to a pole of the first catalog
 * question of that dimension, and the interest tags of the answered
 * questions are ranked by accumulated weight.
 */
module Assessment {
  import opened Options
  import opened Text
  import opened Sequences
  import opened Ranking

  /** A catalog question; `dimension` is one of "EI", "SN", "TF", "JP" in a
      well-formed catalog. */
  datatype Question = Question(
    id: string,
    dimension: string,
    sideA: string,
    sideB: string,
    interests: Option<seq<string>>)

  /** The value of an answer as it arrives: a number, a string, or anything
      else (a boolean, null, an object). */
  datatype AnswerValue = Num(n: int) | Str(s: string) | Other

  datatype Answer = Answer(questionId: string, answer: AnswerValue)

  /** The interest tags of a question; an absent list carries none. */
  function TagsOf(q: Question): seq<string> {
    if q.interests.Some? then q.interests.value else []
  }

  /** `Math.max(lo, Math.min(hi, x))`. */
  function Clamp(x: int, lo: int, hi: int): int
    requires lo <= hi
  {
    if x < lo then lo else if x > hi then hi else x
  }

  function Abs(x: int): nat {
    if x < 0 then -x else x
  }

  /** The signed value of one answer: positive favours `sideA`, negative
      favours `sideB`. */
  function SignedValue(q: Question, v: AnswerValue): (r: int)
    ensures -2 <= r <= 2
    ensures v.Num? ==> (r == 2 <==> v.n >= 5) && (r == -2 <==> v.n <= 1)
    ensures v.Num? && 1 <= v.n <= 5 ==> r == v.n - 3
    ensures v.Other? ==> r == 0
  {
    match v
    case Num(n) => Clamp(n, 1, 5) - 3
    case Str(raw) =>
      var s := ToUpper(Trim(raw));
      if s == "A" || s == ToUpper(q.sideA) then 1
      else if s == "B" || s == ToUpper(q.sideB) then -1
      else (
        match ParseInt(s)
        case None => 0
        case Some(p) => Clamp(p - 3, -2, 2))
    case Other => 0
  }

  // ---------------------------------------------------------------------
  // The question index

  /** The position of the last catalog question with this id, or -1. */
  function FindLastId(catalog: seq<Question>, id: string): (k: int)
    ensures -1 <= k < |catalog|
    ensures forall j :: k < j < |catalog| ==> catalog[j].id != id
    ensures k >= 0 ==> catalog[k].id == id
  {
    if catalog == [] then -1
    else if catalog[|catalog| - 1].id == id then |catalog| - 1
    else FindLastId(catalog[..|catalog| - 1], id)
  }

  /** `qmap[id]` after `questions.forEach(q => qmap[q.id] = q)`: a later
      question with the same id overwrites an earlier one. */
  function Lookup(catalog: seq<Question>, id: string): Option<Question> {
    var k := FindLastId(catalog, id);
    if k < 0 then None else Some(catalog[k])
  }

  // ---------------------------------------------------------------------
  // What the answers accumulate

  /** What one answer adds to the score of dimension d. */
  function DimContribution(catalog: seq<Question>, a: Answer, d: string): int {
    match Lookup(catalog, a.questionId)
    case None => 0
    case Some(q) => if q.dimension == d then SignedValue(q, a.answer) else 0
  }

  /** The score of dimension d: the sum of the signed values of the answers
      to that dimension's questions. */
  function DimScore(catalog: seq<Question>, answers: seq<Answer>, d: string): int {
    if answers == [] then 0
    else DimScore(catalog, answers[..|answers| - 1], d) + DimContribution(catalog, answers[|answers| - 1], d)
  }

  /** g for every occurrence of t in tags. */
  function Gain(tags: seq<string>, t: string, g: nat): nat {
    if tags == [] then 0
    else Gain(tags[..|tags| - 1], t, g) + (if tags[|tags| - 1] == t then g else 0)
  }

  /** The tags of the question an answer resolves to. */
  function AnswerTags(catalog: seq<Question>, a: Answer): seq<string> {
    match Lookup(catalog, a.questionId)
    case None => []
    case Some(q) => TagsOf(q)
  }

  /** The tags of the resolved questions, answer by answer. */
  function ResolvedTags(catalog: seq<Question>, answers: seq<Answer>): seq<string> {
    if answers == [] then []
    else ResolvedTags(catalog, answers[..|answers| - 1]) + AnswerTags(catalog, answers[|answers| - 1])
  }

  /** What one answer adds to the weight of tag t. */
  function TagContribution(catalog: seq<Question>, a: Answer, t: string): nat {
    match Lookup(catalog, a.questionId)
    case None => 0
    case Some(q) => Gain(TagsOf(q), t, Abs(SignedValue(q, a.answer)))
  }

  /** The accumulated weight of interest tag t. */
  function TagWeight(catalog: seq<Question>, answers: seq<Answer>, t: string): nat {
    if answers == [] then 0
    else TagWeight(catalog, answers[..|answers| - 1], t) + TagContribution(catalog, answers[|answers| - 1], t)
  }

  /** The keys of `interestCounts` in insertion order. */
  function TagOrder(catalog: seq<Question>, answers: seq<Answer>): seq<string> {
    DistinctInOrder(ResolvedTags(catalog, answers))
  }

  /** `Object.entries(interestCounts)`. */
  function TagEntries(catalog: seq<Question>, answers: seq<Answer>): (e: seq<(string, int)>)
    ensures |e| == |TagOrder(catalog, answers)|
    ensures forall i :: 0 <= i < |e| ==> e[i] == (TagOrder(catalog, answers)[i], TagWeight(catalog, answers, TagOrder(catalog, answers)[i]) as int)
  {
    var order := TagOrder(catalog, answers);
    seq(|order|, i requires 0 <= i < |order| => (order[i], TagWeight(catalog, answers, order[i]) as int))
  }

  /** The tags among ts whose weight is w, in their order in ts. */
  function OfWeight(catalog: seq<Question>, answers: seq<Answer>, ts: seq<string>, w: int): seq<string> {
    if ts == [] then []
    else (if TagWeight(catalog, answers, ts[0]) == w then [ts[0]] else []) + OfWeight(catalog, answers, ts[1..], w)
  }

  /** The interest list: the tags sorted by descending weight. */
  function RankedInterests(catalog: seq<Question>, answers: seq<Answer>): seq<string> {
    Items(SortByWeight(TagEntries(catalog, answers)))
  }

  /** The interest list holds every tag of an answered question exactly
      once, heaviest first, tags of equal weight in the order first seen. */
  lemma RankedInterestsSpec(catalog: seq<Question>, answers: seq<Answer>)
    ensures var r := RankedInterests(catalog, answers);
      && multiset(r) == multiset(TagOrder(catalog, answers))
      && Distinct(r)
      && (forall t | t in r :: t in ResolvedTags(catalog, answers))
      && (forall t | t in ResolvedTags(catalog, answers) :: t in r)
      && (forall i, j :: 0 <= i < j < |r| ==> TagWeight(catalog, answers, r[j]) <= TagWeight(catalog, answers, r[i]))
      && (forall w :: OfWeight(catalog, answers, r, w) == OfWeight(catalog, answers, TagOrder(catalog, answers), w))
  {
    var r := RankedInterests(catalog, answers);
    RankingFacts(catalog, answers);
    DistinctInOrderSpec(ResolvedTags(catalog, answers));
    SameMembers(r, TagOrder(catalog, answers), ResolvedTags(catalog, answers));
  }

  lemma SameMembers(r: seq<string>, order: seq<string>, tags: seq<string>)
    requires multiset(r) == multiset(order)
    requires forall t | t in order :: t in tags
    requires forall t | t in tags :: t in order
    ensures forall t | t in r :: t in tags
    ensures forall t | t in tags :: t in r
  {
    forall t | t in r ensures t in tags {
      assert t in multiset(order);
    }
    forall t | t in tags ensures t in r {
      assert t in multiset(r);
    }
  }

  lemma RankingFacts(catalog: seq<Question>, answers: seq<Answer>)
    ensures var r := Items(SortByWeight(TagEntries(catalog, answers)));
      && multiset(r) == multiset(TagOrder(catalog, answers))
      && Distinct(r)
      && (forall i, j :: 0 <= i < j < |r| ==> TagWeight(catalog, answers, r[j]) <= TagWeight(catalog, answers, r[i]))
      && (forall w :: OfWeight(catalog, answers, r, w) == OfWeight(catalog, answers, TagOrder(catalog, answers), w))
  {
    var entries := TagEntries(catalog, answers);
    var sorted := SortByWeight(entries);
    var order := TagOrder(catalog, answers);
    RankingPermutes(entries, order);
    DistinctInOrderSpec(ResolvedTags(catalog, answers));
    DistinctPermutation(Items(sorted), order);
    EntriesWeighed(catalog, answers, entries, sorted);
    RankingSorted(catalog, answers, sorted);
    forall w
      ensures OfWeight(catalog, answers, Items(sorted), w) == OfWeight(catalog, answers, order, w)
    {
      ItemsOfWeight(catalog, answers, sorted, w);
      ItemsOfWeight(catalog, answers, entries, w);
      assert Items(entries) == order;
    }
  }

  lemma RankingPermutes(entries: seq<(string, int)>, order: seq<string>)
    requires Items(entries) == order
    ensures multiset(Items(SortByWeight(entries))) == multiset(order)
  {
    SortKeepsItems(entries);
  }

  lemma EntriesWeighed(catalog: seq<Question>, answers: seq<Answer>, entries: seq<(string, int)>, sorted: seq<(string, int)>)
    requires forall i :: 0 <= i < |entries| ==> entries[i].1 == TagWeight(catalog, answers, entries[i].0) as int
    requires multiset(sorted) == multiset(entries)
    ensures forall i :: 0 <= i < |sorted| ==> sorted[i].1 == TagWeight(catalog, answers, sorted[i].0) as int
  {
    forall i | 0 <= i < |sorted|
      ensures sorted[i].1 == TagWeight(catalog, answers, sorted[i].0) as int
    {
      assert sorted[i] in multiset(entries);
    }
  }

  lemma RankingSorted(catalog: seq<Question>, answers: seq<Answer>, sorted: seq<(string, int)>)
    requires NonIncreasing(sorted)
    requires forall i :: 0 <= i < |sorted| ==> sorted[i].1 == TagWeight(catalog, answers, sorted[i].0) as int
    ensures var r := Items(sorted);
      forall i, j :: 0 <= i < j < |r| ==> TagWeight(catalog, answers, r[j]) <= TagWeight(catalog, answers, r[i])
  {
  }

  lemma {:induction false} ItemsOfWeight(catalog: seq<Question>, answers: seq<Answer>, s: seq<(string, int)>, w: int)
    requires forall i :: 0 <= i < |s| ==> s[i].1 == TagWeight(catalog, answers, s[i].0) as int
    ensures Items(WithWeight(s, w)) == OfWeight(catalog, answers, Items(s), w)
  {
    if s != [] {
      ItemsOfWeight(catalog, answers, s[1..], w);
      assert Items(s)[1..] == Items(s[1..]);
      assert Items(WithWeight(s, w)) == Items(if s[0].1 == w then [s[0]] else []) + Items(WithWeight(s[1..], w));
    }
  }

  // ---------------------------------------------------------------------
  // Resolving the dimensions

  /** Position i holds the first catalog question of dimension d. */
  predicate IsFirstOfDimension(catalog: seq<Question>, d: string, i: int) {
    0 <= i < |catalog| && catalog[i].dimension == d &&
    forall j :: 0 <= j < i ==> catalog[j].dimension != d
  }

  /** Where `questions.find(x => x.dimension === d)` stops: the first
      question of dimension d, or the catalog's length when there is none. */
  function FindDimension(catalog: seq<Question>, d: string): (k: nat)
    ensures k <= |catalog|
    ensures forall j :: 0 <= j < k ==> catalog[j].dimension != d
    ensures k < |catalog| ==> catalog[k].dimension == d
  {
    if catalog == [] || catalog[0].dimension == d then 0
    else 1 + FindDimension(catalog[1..], d)
  }

  /** `pick(d)`: the pole of the first question of dimension d that the score
      favours, ties going to `sideA`; "X" when no question has dimension d. */
  function Pick(catalog: seq<Question>, d: string, score: int): (r: string)
    ensures (forall i :: 0 <= i < |catalog| ==> catalog[i].dimension != d) ==> r == "X"
    ensures forall i :: IsFirstOfDimension(catalog, d, i) ==>
              r == if score >= 0 then catalog[i].sideA else catalog[i].sideB
  {
    var k := FindDimension(catalog, d);
    if k == |catalog| then "X"
    else if score >= 0 then catalog[k].sideA
    else catalog[k].sideB
  }

  /** The personality code: the picks of EI, SN, TF and JP in that order. */
  function Personality(catalog: seq<Question>, answers: seq<Answer>): string {
    Pick(catalog, "EI", DimScore(catalog, answers, "EI")) +
    Pick(catalog, "SN", DimScore(catalog, answers, "SN")) +
    Pick(catalog, "TF", DimScore(catalog, answers, "TF")) +
    Pick(catalog, "JP", DimScore(catalog, answers, "JP"))
  }

  /** The code of an assessment in which nothing leans either way. */
  function DefaultPersonality(catalog: seq<Question>): string {
    Pick(catalog, "EI", 0) + Pick(catalog, "SN", 0) + Pick(catalog, "TF", 0) + Pick(catalog, "JP", 0)
  }

  // ---------------------------------------------------------------------
  // scoreAssessment

  /** The loop state after the answers seen so far: `dims`, the keys of
      `interestCounts` in insertion order, and `interestCounts` itself. */
  ghost predicate Tallied(catalog: seq<Question>, answers: seq<Answer>,
                          dims: map<string, int>, counts: map<string, nat>, keys: seq<string>)
  {
    && dims.Keys == {"EI", "SN", "TF", "JP"}
    && (forall d | d in dims :: dims[d] == DimScore(catalog, answers, d))
    && keys == TagOrder(catalog, answers)
    && Distinct(keys)
    && (forall t :: t in counts <==> t in keys)
    && (forall t | t in counts :: counts[t] == TagWeight(catalog, answers, t))
  }

  method ScoreAssessment(catalog: seq<Question>, answers: seq<Answer>)
    returns (personality: string, dims: map<string, int>, interests: seq<string>)
    ensures dims.Keys == {"EI", "SN", "TF", "JP"}
    ensures forall d | d in dims :: dims[d] == DimScore(catalog, answers, d)
    ensures personality == Personality(catalog, answers)
    ensures interests == RankedInterests(catalog, answers)
  {
    dims := map["EI" := 0, "SN" := 0, "TF" := 0, "JP" := 0];
    var counts: map<string, nat> := map[];
    var keys: seq<string> := [];
    var qmap := IndexQuestions(catalog);

    var i := 0;
    while i < |answers|
      invariant 0 <= i <= |answers|
      invariant Tallied(catalog, answers[..i], dims, counts, keys)
    {
      assert answers[..i + 1] == answers[..i] + [answers[i]];
      dims, counts, keys := TallyAnswer(catalog, qmap, answers[..i], answers[i], dims, counts, keys);
      i := i + 1;
    }
    assert answers[..i] == answers;

    personality := Pick(catalog, "EI", dims["EI"]) + Pick(catalog, "SN", dims["SN"]) +
                   Pick(catalog, "TF", dims["TF"]) + Pick(catalog, "JP", dims["JP"]);
    var entries := seq(|keys|, n requires 0 <= n < |keys| => (keys[n], counts[keys[n]] as int));
    TalliedEntries(catalog, answers, dims, counts, keys, entries);
    interests := Items(SortByWeight(entries));
  }

  /** `Object.entries(interestCounts)` of the final loop state. */
  lemma TalliedEntries(catalog: seq<Question>, answers: seq<Answer>,
                       dims: map<string, int>, counts: map<string, nat>, keys: seq<string>,
                       entries: seq<(string, int)>)
    requires Tallied(catalog, answers, dims, counts, keys)
    requires |entries| == |keys|
    requires forall n :: 0 <= n < |keys| ==> keys[n] in counts && entries[n] == (keys[n], counts[keys[n]] as int)
    ensures entries == TagEntries(catalog, answers)
  {
  }

  /** `questions.forEach(q => (qmap[q.id] = q))`. */
  method IndexQuestions(catalog: seq<Question>) returns (qmap: map<string, Question>)
    ensures forall id :: Lookup(catalog, id) == (if id in qmap then Some(qmap[id]) else None)
  {
    qmap := map[];
    var k := 0;
    while k < |catalog|
      invariant 0 <= k <= |catalog|
      invariant forall id :: Lookup(catalog[..k], id) == (if id in qmap then Some(qmap[id]) else None)
    {
      assert catalog[..k + 1][..k] == catalog[..k];
      qmap := qmap[catalog[k].id := catalog[k]];
      k := k + 1;
    }
    assert catalog[..k] == catalog;
  }

  /** One pass of the answer loop: an answer to an unknown question is
      skipped; otherwise its signed value is added to its dimension and its
      magnitude to each interest tag of the question. */
  method TallyAnswer(catalog: seq<Question>, qmap: map<string, Question>, ghost before: seq<Answer>, a: Answer,
                     dims: map<string, int>, counts: map<string, nat>, keys: seq<string>)
    returns (dims': map<string, int>, counts': map<string, nat>, keys': seq<string>)
    requires forall id :: Lookup(catalog, id) == (if id in qmap then Some(qmap[id]) else None)
    requires Tallied(catalog, before, dims, counts, keys)
    ensures Tallied(catalog, before + [a], dims', counts', keys')
  {
    if a.questionId in qmap {
      dims', counts', keys' := TallyResolved(catalog, before, a, qmap[a.questionId], dims, counts, keys);
    } else {
      UnresolvedTallied(catalog, before, a, dims, counts, keys);
      dims', counts', keys' := dims, counts, keys;
    }
  }

  /** The loop body for an answer whose question q was found. */
  method TallyResolved(catalog: seq<Question>, ghost before: seq<Answer>, a: Answer, q: Question,
                       dims: map<string, int>, counts: map<string, nat>, keys: seq<string>)
    returns (dims': map<string, int>, counts': map<string, nat>, keys': seq<string>)
    requires Lookup(catalog, a.questionId) == Some(q)
    requires Tallied(catalog, before, dims, counts, keys)
    ensures Tallied(catalog, before + [a], dims', counts', keys')
  {
    var val := SignedValue(q, a.answer);
    dims' := dims;
    if q.dimension in dims {
      dims' := dims[q.dimension := dims[q.dimension] + val];
    }
    if q.interests.Some? {
      var tags := q.interests.value;
      counts', keys' := AddTagWeights(counts, keys, tags, Abs(val));
      TallyStep(catalog, before, a, q, dims, counts, keys, tags, Abs(val), dims', counts', keys');
    } else {
      counts', keys' := counts, keys;
      NoTagsStep(catalog, before, a, q, dims, counts, keys, dims');
    }
  }

  /** `for (const it of q.interests) interestCounts[it] = (interestCounts[it] || 0) + g`:
      every tag gains g per occurrence, and a tag seen for the first time is
      appended to the key order. */
  method AddTagWeights(counts: map<string, nat>, keys: seq<string>, tags: seq<string>, g: nat)
    returns (counts': map<string, nat>, keys': seq<string>)
    requires Distinct(keys)
    requires forall t :: t in counts <==> t in keys
    ensures keys' == DistinctInOrder(keys + tags)
    ensures forall t :: t in counts' <==> t in keys'
    ensures forall t | t in counts' :: counts'[t] == (if t in counts then counts[t] else 0) + Gain(tags, t, g)
  {
    counts', keys' := counts, keys;
    var j := 0;
    DistinctInOrderOfDistinct(keys);
    assert keys + tags[..0] == keys;
    while j < |tags|
      invariant 0 <= j <= |tags|
      invariant keys' == DistinctInOrder(keys + tags[..j])
      invariant forall t :: t in counts' <==> t in keys'
      invariant forall t | t in counts :: t in counts'
      invariant forall t | t in counts' :: counts'[t] == (if t in counts then counts[t] else 0) + Gain(tags[..j], t, g)
    {
      var it := tags[j];
      ghost var counts0, keys0 := counts', keys';
      if it in counts' {
        counts' := counts'[it := counts'[it] + g];
      } else {
        counts' := counts'[it := g];
        keys' := keys' + [it];
      }
      AddTagStep(counts, keys, tags, j, g, counts0, keys0, counts', keys');
      j := j + 1;
    }
    assert tags[..j] == tags;
  }

  /** One pass of the tag loop keeps its invariant. */
  lemma AddTagStep(counts: map<string, nat>, keys: seq<string>, tags: seq<string>, j: nat, g: nat,
                   counts0: map<string, nat>, keys0: seq<string>, counts1: map<string, nat>, keys1: seq<string>)
    requires j < |tags|
    requires keys0 == DistinctInOrder(keys + tags[..j])
    requires forall t :: t in counts0 <==> t in keys0
    requires forall t | t in counts :: t in counts0
    requires forall t | t in counts0 :: counts0[t] == (if t in counts then counts[t] else 0) + Gain(tags[..j], t, g)
    requires counts1 == counts0[tags[j] := (if tags[j] in counts0 then counts0[tags[j]] else 0) + g]
    requires keys1 == if tags[j] in counts0 then keys0 else keys0 + [tags[j]]
    ensures keys1 == DistinctInOrder(keys + tags[..j + 1])
    ensures forall t :: t in counts1 <==> t in keys1
    ensures forall t | t in counts :: t in counts1
    ensures forall t | t in counts1 :: counts1[t] == (if t in counts then counts[t] else 0) + Gain(tags[..j + 1], t, g)
  {
    var it := tags[j];
    var pre := keys + tags[..j];
    assert keys + tags[..j + 1] == pre + [it];
    DistinctInOrderSnoc(pre, it);
    DistinctInOrderHas(pre, it);
    GainExtend(tags, j, g);
    if it !in counts0 {
      GainOfAbsent(tags[..j], it, g);
    }
  }

  lemma TallyStep(catalog: seq<Question>, before: seq<Answer>, a: Answer, q: Question,
                  dims: map<string, int>, counts: map<string, nat>, keys: seq<string>,
                  tags: seq<string>, g: nat,
                  dims': map<string, int>, counts': map<string, nat>, keys': seq<string>)
    requires Lookup(catalog, a.questionId) == Some(q)
    requires Tallied(catalog, before, dims, counts, keys)
    requires tags == TagsOf(q) && g == Abs(SignedValue(q, a.answer))
    requires dims' == if q.dimension in dims then dims[q.dimension := dims[q.dimension] + SignedValue(q, a.answer)] else dims
    requires keys' == DistinctInOrder(keys + tags)
    requires forall t :: t in counts' <==> t in keys'
    requires forall t | t in counts' :: counts'[t] == (if t in counts then counts[t] else 0) + Gain(tags, t, g)
    ensures Tallied(catalog, before + [a], dims', counts', keys')
  {
    TallyDims(catalog, before, a, q, dims, dims');
    TallyKeys(catalog, before, a, q, keys, keys');
    TallyCounts(catalog, before, a, q, counts, keys, counts');
  }

  lemma TallyDims(catalog: seq<Question>, before: seq<Answer>, a: Answer, q: Question,
                  dims: map<string, int>, dims': map<string, int>)
    requires Lookup(catalog, a.questionId) == Some(q)
    requires forall d | d in dims :: dims[d] == DimScore(catalog, before, d)
    requires dims' == if q.dimension in dims then dims[q.dimension := dims[q.dimension] + SignedValue(q, a.answer)] else dims
    ensures dims'.Keys == dims.Keys
    ensures forall d | d in dims' :: dims'[d] == DimScore(catalog, before + [a], d)
  {
    AppendAnswer(catalog, before, a);
  }

  lemma TallyKeys(catalog: seq<Question>, before: seq<Answer>, a: Answer, q: Question,
                  keys: seq<string>, keys': seq<string>)
    requires Lookup(catalog, a.questionId) == Some(q)
    requires keys == TagOrder(catalog, before)
    requires keys' == DistinctInOrder(keys + TagsOf(q))
    ensures keys' == TagOrder(catalog, before + [a]) && Distinct(keys')
  {
    AppendAnswer(catalog, before, a);
    var seen := ResolvedTags(catalog, before);
    DistinctInOrderAppend(seen, TagsOf(q));
    DistinctInOrderSpec(seen + TagsOf(q));
  }

  lemma TallyCounts(catalog: seq<Question>, before: seq<Answer>, a: Answer, q: Question,
                    counts: map<string, nat>, keys: seq<string>, counts': map<string, nat>)
    requires Lookup(catalog, a.questionId) == Some(q)
    requires keys == TagOrder(catalog, before)
    requires forall t :: t in counts <==> t in keys
    requires forall t | t in counts :: counts[t] == TagWeight(catalog, before, t)
    requires forall t | t in counts' :: counts'[t] == (if t in counts then counts[t] else 0) + Gain(TagsOf(q), t, Abs(SignedValue(q, a.answer)))
    ensures forall t | t in counts' :: counts'[t] == TagWeight(catalog, before + [a], t)
  {
    AppendAnswer(catalog, before, a);
    DistinctInOrderSpec(ResolvedTags(catalog, before));
    forall t | t in counts'
      ensures counts'[t] == TagWeight(catalog, before + [a], t)
    {
      if t !in counts {
        UnseenTagWeighsNothing(catalog, before, t);
      }
    }
  }

  lemma UnresolvedStep(catalog: seq<Question>, before: seq<Answer>, a: Answer)
    requires Lookup(catalog, a.questionId).None?
    ensures TagOrder(catalog, before + [a]) == TagOrder(catalog, before)
    ensures forall d :: DimScore(catalog, before + [a], d) == DimScore(catalog, before, d)
    ensures forall t :: TagWeight(catalog, before + [a], t) == TagWeight(catalog, before, t)
  {
    AppendAnswer(catalog, before, a);
  }

  lemma UnresolvedTallied(catalog: seq<Question>, before: seq<Answer>, a: Answer,
                          dims: map<string, int>, counts: map<string, nat>, keys: seq<string>)
    requires Lookup(catalog, a.questionId).None?
    requires Tallied(catalog, before, dims, counts, keys)
    ensures Tallied(catalog, before + [a], dims, counts, keys)
  {
    UnresolvedStep(catalog, before, a);
  }

  lemma NoTagsStep(catalog: seq<Question>, before: seq<Answer>, a: Answer, q: Question,
                   dims: map<string, int>, counts: map<string, nat>, keys: seq<string>, dims': map<string, int>)
    requires Lookup(catalog, a.questionId) == Some(q) && q.interests.None?
    requires Tallied(catalog, before, dims, counts, keys)
    requires dims' == if q.dimension in dims then dims[q.dimension := dims[q.dimension] + SignedValue(q, a.answer)] else dims
    ensures Tallied(catalog, before + [a], dims', counts, keys)
  {
    DistinctInOrderOfDistinct(keys);
    assert keys + TagsOf(q) == keys;
    TallyStep(catalog, before, a, q, dims, counts, keys, [], Abs(SignedValue(q, a.answer)), dims', counts, keys);
  }

  /** How one more answer changes the accumulated state. */
  lemma AppendAnswer(catalog: seq<Question>, answers: seq<Answer>, a: Answer)
    ensures Lookup(catalog, a.questionId).None? ==>
      && ResolvedTags(catalog, answers + [a]) == ResolvedTags(catalog, answers)
      && (forall d :: DimScore(catalog, answers + [a], d) == DimScore(catalog, answers, d))
      && (forall t :: TagWeight(catalog, answers + [a], t) == TagWeight(catalog, answers, t))
    ensures Lookup(catalog, a.questionId).Some? ==>
      var q := Lookup(catalog, a.questionId).value;
      var val := SignedValue(q, a.answer);
      && ResolvedTags(catalog, answers + [a]) == ResolvedTags(catalog, answers) + TagsOf(q)
      && (forall d :: DimScore(catalog, answers + [a], d) == DimScore(catalog, answers, d) + (if q.dimension == d then val else 0))
      && (forall t :: TagWeight(catalog, answers + [a], t) == TagWeight(catalog, answers, t) + Gain(TagsOf(q), t, Abs(val)))
  {
    assert (answers + [a])[..|answers|] == answers;
  }

  lemma {:induction false} UnseenTagWeighsNothing(catalog: seq<Question>, answers: seq<Answer>, t: string)
    requires t !in ResolvedTags(catalog, answers)
    ensures TagWeight(catalog, answers, t) == 0
  {
    if answers != [] {
      var init := answers[..|answers| - 1];
      UnseenTagWeighsNothing(catalog, init, t);
      var tags := AnswerTags(catalog, answers[|answers| - 1]);
      assert t !in tags;
      match Lookup(catalog, answers[|answers| - 1].questionId)
      case None =>
      case Some(q) => GainOfAbsent(TagsOf(q), t, Abs(SignedValue(q, answers[|answers| - 1].answer)));
    }
  }

  lemma GainExtend(tags: seq<string>, j: nat, g: nat)
    requires j < |tags|
    ensures forall t :: Gain(tags[..j + 1], t, g) == Gain(tags[..j], t, g) + (if tags[j] == t then g else 0)
  {
    assert tags[..j + 1][..j] == tags[..j];
  }

  lemma {:induction false} GainOfAbsent(tags: seq<string>, t: string, g: nat)
    requires t !in tags
    ensures Gain(tags, t, g) == 0
  {
    if tags != [] {
      GainOfAbsent(tags[..|tags| - 1], t, g);
    }
  }
}
