/**
 * What `recommend` and `recommendByPersonality` promise: how a career is
 * scored, how the list is bounded, ordered and deduplicated, and what it
 * is when ids are unique.
 */
module RecommendationProperties {
  import opened Text
  import opened Sequences
  import opened Ranking
  import opened Recommendation

  // ---------------------------------------------------------------------
  // Scoring

  /** The +5 bonus is given exactly when the career lists personalities,
      the code is non-empty, and one of the listed entries equals the code
      ignoring case. */
  lemma PersonalityBonusSpec(c: Career, personality: string)
    ensures PersonalityBonus(c, ToUpper(personality)) == 0 || PersonalityBonus(c, ToUpper(personality)) == 5
    ensures PersonalityBonus(c, ToUpper(personality)) == 5 <==>
      && c.personalities.Some?
      && personality != []
      && exists i :: 0 <= i < |c.personalities.value| && ToUpper(c.personalities.value[i]) == ToUpper(personality)
  {
    var p := ToUpper(personality);
    if c.personalities.Some? && personality != [] {
      var ups := UpperAll(c.personalities.value);
      if p in ups {
        var i :| 0 <= i < |ups| && ups[i] == p;
        assert ToUpper(c.personalities.value[i]) == p;
      }
    }
  }

  /** A pair scores 3 exactly on equality ignoring case, 1 exactly when one
      occurs inside the other (ignoring case) without being equal, and 0
      otherwise. */
  lemma PairScoreSpec(interest: string, skill: string)
    ensures PairScore(interest, skill) == 3 <==> ToLower(interest) == ToLower(skill)
    ensures PairScore(interest, skill) == 1 <==>
      && ToLower(interest) != ToLower(skill)
      && ((exists k :: OccursAt(ToLower(skill), ToLower(interest), k)) || (exists k :: OccursAt(ToLower(interest), ToLower(skill), k)))
    ensures PairScore(interest, skill) == 0 || PairScore(interest, skill) == 1 || PairScore(interest, skill) == 3
  {
    IncludesIffOccurs(ToLower(skill), ToLower(interest));
    IncludesIffOccurs(ToLower(interest), ToLower(skill));
  }

  /** The pair score does not depend on which side is the interest. */
  lemma PairScoreSymmetric(interest: string, skill: string)
    ensures PairScore(interest, skill) == PairScore(skill, interest)
  {
  }

  /** An empty interest is contained in every skill, so it adds at least 1
      per skill. */
  lemma EmptyInterestMatchesAll(skills: seq<string>)
    ensures RowScore([], skills) >= |skills|
  {
    EmptyInterestRow(skills);
  }

  lemma {:induction false} EmptyInterestRow(skills: seq<string>)
    ensures RowScore([], skills) >= |skills|
  {
    if skills != [] {
      EmptyInterestRow(skills[..|skills| - 1]);
      var s := ToLower(skills[|skills| - 1]);
      assert IsPrefix(ToLower([]), s);
    }
  }

  /** One interest adds at most 3 per skill. */
  lemma {:induction false} RowScoreBound(interest: string, skills: seq<string>)
    ensures RowScore(interest, skills) <= 3 * |skills|
  {
    if skills != [] {
      RowScoreBound(interest, skills[..|skills| - 1]);
    }
  }

  /** The interest part of a career's score is at most 3 per
      (interest, skill) pair. */
  lemma {:induction false} InterestScoreBound(interests: seq<string>, skills: seq<string>)
    ensures InterestScore(interests, skills) <= |interests| * (3 * |skills|)
  {
    if interests != [] {
      var init := interests[..|interests| - 1];
      InterestScoreBound(init, skills);
      RowScoreBound(interests[|interests| - 1], skills);
      MulSucc(|init|, 3 * |skills|);
    }
  }

  lemma MulSucc(a: nat, m: nat)
    ensures (a + 1) * m == a * m + m
  {
  }

  /** Without interests a career scores only its personality bonus: 0 or 5. */
  lemma NoInterestsScore(c: Career, personality: string)
    ensures CareerScore(c, ToUpper(personality), []) == PersonalityBonus(c, ToUpper(personality))
    ensures CareerScore(c, ToUpper(personality), []) == 0 || CareerScore(c, ToUpper(personality), []) == 5
  {
  }

  // ---------------------------------------------------------------------
  // The ranking

  /** The careers of catalog with score w, in catalog order. */
  function OfScore(catalog: seq<Career>, p: string, interests: seq<string>, w: int): seq<Career> {
    if catalog == [] then []
    else (if CareerScore(catalog[0], p, interests) == w then [catalog[0]] else [])
         + OfScore(catalog[1..], p, interests, w)
  }

  lemma {:induction false} ItemsOfScore(catalog: seq<Career>, p: string, interests: seq<string>, w: int)
    ensures Items(WithWeight(ScoreAll(catalog, p, interests), w)) == OfScore(catalog, p, interests, w)
  {
    if catalog != [] {
      var s := ScoreAll(catalog, p, interests);
      assert s[1..] == ScoreAll(catalog[1..], p, interests);
      ItemsOfScore(catalog[1..], p, interests, w);
      ItemsAppend(if s[0].1 == w then [s[0]] else [], WithWeight(s[1..], w));
    }
  }

  lemma ItemsAppend<T>(a: seq<(T, int)>, b: seq<(T, int)>)
    ensures Items(a + b) == Items(a) + Items(b)
  {
  }

  /** The sort is stable: the careers of any one score appear in catalog
      order. */
  lemma EqualScoresKeepCatalogOrder(catalog: seq<Career>, p: string, interests: seq<string>, w: int)
    ensures Items(WithWeight(Ranked(catalog, p, interests), w)) == OfScore(catalog, p, interests, w)
  {
    ItemsOfScore(catalog, p, interests, w);
  }

  /** Every ranked entry carries its career's score, and scores never
      increase down the list. */
  lemma RankedScores(catalog: seq<Career>, p: string, interests: seq<string>)
    ensures var r := Ranked(catalog, p, interests);
      && NonIncreasing(r)
      && forall i :: 0 <= i < |r| ==> r[i].1 == CareerScore(r[i].0, p, interests) as int
  {
    var s := ScoreAll(catalog, p, interests);
    var r := Ranked(catalog, p, interests);
    forall i | 0 <= i < |r|
      ensures r[i].1 == CareerScore(r[i].0, p, interests) as int
    {
      assert r[i] in multiset(s);
    }
  }

  /** The ranking lists every catalog career, each as often as the catalog
      does. */
  lemma TopIsPermutation(catalog: seq<Career>, p: string, interests: seq<string>)
    ensures multiset(Top(catalog, p, interests)) == multiset(catalog)
    ensures |Top(catalog, p, interests)| == |catalog|
  {
    var s := ScoreAll(catalog, p, interests);
    SortKeepsItems(s);
    assert Items(s) == catalog;
    assert |multiset(Top(catalog, p, interests))| == |multiset(catalog)|;
  }

  lemma {:induction false} NoPositive(s: seq<(Career, int)>)
    requires forall i :: 0 <= i < |s| ==> s[i].1 <= 0
    ensures Positive(s) == []
  {
    if s != [] {
      NoPositive(s[1..]);
    }
  }

  /** In a list sorted by descending score the careers that scored come
      first. */
  lemma {:induction false} PositivePrefix(s: seq<(Career, int)>)
    requires NonIncreasing(s)
    ensures |Positive(s)| <= |s| && Positive(s) == s[..|Positive(s)|]
  {
    if s != [] {
      if s[0].1 > 0 {
        PositivePrefix(s[1..]);
      } else {
        NoPositive(s[1..]);
      }
    }
  }

  /** `best` is the beginning of `top`. */
  lemma BestIsPrefixOfTop(catalog: seq<Career>, p: string, interests: seq<string>)
    ensures var best := Best(catalog, p, interests);
      |best| <= |Top(catalog, p, interests)| && best == Top(catalog, p, interests)[..|best|]
  {
    var r := Ranked(catalog, p, interests);
    RankedScores(catalog, p, interests);
    PositivePrefix(r);
    var m := |Positive(r)|;
    assert Items(r[..m]) == Items(r)[..m];
  }

  /** Every career in `best` scored above 0, and `best` is ordered by
      descending score. */
  lemma BestScored(catalog: seq<Career>, p: string, interests: seq<string>)
    ensures var best := Best(catalog, p, interests);
      && (forall i :: 0 <= i < |best| ==> CareerScore(best[i], p, interests) > 0)
      && (forall i, j :: 0 <= i < j < |best| ==> CareerScore(best[j], p, interests) <= CareerScore(best[i], p, interests))
  {
    var r := Ranked(catalog, p, interests);
    RankedScores(catalog, p, interests);
    PositivePrefix(r);
    var m := |Positive(r)|;
    PositiveAllScored(r);
  }

  lemma {:induction false} PositiveAllScored(s: seq<(Career, int)>)
    ensures forall i :: 0 <= i < |Positive(s)| ==> Positive(s)[i].1 > 0
  {
    if s != [] {
      PositiveAllScored(s[1..]);
    }
  }

  // ---------------------------------------------------------------------
  // Deduplication

  /** Deduplication leaves no id twice. */
  lemma {:induction false} DedupUnique(s: seq<Career>)
    ensures UniqueIds(DedupById(s))
  {
    if s != [] {
      DedupUnique(s[..|s| - 1]);
      var d := DedupById(s[..|s| - 1]);
      var x := s[|s| - 1];
      if x.id !in Ids(d) {
        forall i | 0 <= i < |d| ensures d[i].id != x.id {
          assert Ids(d)[i] == d[i].id;
        }
      }
    }
  }

  /** A list without repeated ids survives deduplication unchanged. */
  lemma {:induction false} DedupOfUnique(s: seq<Career>)
    requires UniqueIds(s)
    ensures DedupById(s) == s
  {
    if s != [] {
      var init := s[..|s| - 1];
      DedupOfUnique(init);
      var x := s[|s| - 1];
      assert x.id !in Ids(init) by {
        forall i | 0 <= i < |init| ensures Ids(init)[i] != x.id {
        }
      }
    }
  }

  /** Walking a prefix of s and then a shorter prefix keeps the first. */
  lemma {:induction false} DedupRepeatShorter(s: seq<Career>, m: nat, k: nat)
    requires UniqueIds(s) && k <= m <= |s|
    ensures DedupById(s[..m] + s[..k]) == s[..m]
  {
    if k == 0 {
      assert s[..m] + s[..k] == s[..m];
      DedupOfUnique(s[..m]);
    } else {
      DedupRepeatShorter(s, m, k - 1);
      var t := s[..m] + s[..k];
      assert t[..|t| - 1] == s[..m] + s[..k - 1];
      assert t[|t| - 1] == s[k - 1];
      SeenBefore(s, m, k - 1);
    }
  }

  /** Walking a prefix of s and then a longer prefix keeps the second. */
  lemma {:induction false} DedupRepeatLonger(s: seq<Career>, m: nat, k: nat)
    requires UniqueIds(s) && m <= k <= |s|
    ensures DedupById(s[..m] + s[..k]) == s[..k]
  {
    if k == m {
      DedupRepeatShorter(s, m, k);
    } else {
      DedupRepeatLonger(s, m, k - 1);
      var t := s[..m] + s[..k];
      assert t[..|t| - 1] == s[..m] + s[..k - 1];
      assert t[|t| - 1] == s[k - 1];
      NotSeenBefore(s, k - 1);
    }
  }

  lemma SeenBefore(s: seq<Career>, m: nat, i: nat)
    requires i < m <= |s|
    ensures s[i].id in Ids(s[..m])
  {
    assert Ids(s[..m])[i] == s[i].id;
  }

  lemma NotSeenBefore(s: seq<Career>, i: nat)
    requires UniqueIds(s) && i < |s|
    ensures s[i].id !in Ids(s[..i]) && s[..i] + [s[i]] == s[..i + 1]
  {
    forall j | 0 <= j < i ensures Ids(s[..i])[j] != s[i].id {
    }
  }

  lemma DedupNonEmpty(s: seq<Career>)
    requires s != []
    ensures DedupById(s) != []
  {
    DedupPrefix(s, 1);
    assert s[..1][..0] == [];
  }

  /** A rearrangement of a list without repeated ids has none either. */
  lemma UniqueIdsPermutation(a: seq<Career>, b: seq<Career>)
    requires multiset(a) == multiset(b) && UniqueIds(b)
    ensures UniqueIds(a)
  {
    assert Distinct(b);
    DistinctPermutation(a, b);
    forall i, j | 0 <= i < j < |a|
      ensures a[i].id != a[j].id
    {
      assert a[i] in multiset(b) && a[j] in multiset(b);
      var p :| 0 <= p < |b| && b[p] == a[i];
      var q :| 0 <= q < |b| && b[q] == a[j];
      assert p != q;
    }
  }

  // ---------------------------------------------------------------------
  // recommend

  /** An empty catalog gives an empty list. */
  lemma EmptyCatalog(personality: string, interests: seq<string>, limit: int)
    ensures Recommended([], personality, interests, limit) == []
  {
    var p := ToUpper(personality);
    assert ScoreAll([], p, interests) == [];
    assert Top([], p, interests) == [];
    assert Best([], p, interests) == [];
  }

  /** The list never holds more than `limit` careers. */
  lemma RecommendationBounded(catalog: seq<Career>, personality: string, interests: seq<string>, limit: int)
    requires limit >= 0
    ensures |Recommended(catalog, personality, interests, limit)| <= limit
  {
  }

  /** With at least `limit` careers that scored, the list is exactly the
      first `limit` of them: every one scored, best first. */
  lemma EnoughScored(catalog: seq<Career>, personality: string, interests: seq<string>, limit: int)
    requires 0 <= limit <= |Best(catalog, ToUpper(personality), interests)|
    ensures var r := Recommended(catalog, personality, interests, limit);
      && r == Best(catalog, ToUpper(personality), interests)[..limit]
      && (forall i :: 0 <= i < |r| ==> CareerScore(r[i], ToUpper(personality), interests) > 0)
      && (forall i, j :: 0 <= i < j < |r| ==> CareerScore(r[j], ToUpper(personality), interests) <= CareerScore(r[i], ToUpper(personality), interests))
  {
    BestScored(catalog, ToUpper(personality), interests);
  }

  /** A negative `limit` drops that many careers from the end of `best`. */
  lemma NegativeLimit(catalog: seq<Career>, personality: string, interests: seq<string>, limit: int)
    requires limit < 0
    ensures var best := Best(catalog, ToUpper(personality), interests);
      Recommended(catalog, personality, interests, limit) == best[..if |best| + limit > 0 then |best| + limit else 0]
  {
  }

  /** When too few careers scored, no id appears twice in the list. */
  lemma FallbackUniqueIds(catalog: seq<Career>, personality: string, interests: seq<string>, limit: int)
    requires |Best(catalog, ToUpper(personality), interests)| < limit
    ensures UniqueIds(Recommended(catalog, personality, interests, limit))
  {
    var p := ToUpper(personality);
    var best := Best(catalog, p, interests);
    var top := Top(catalog, p, interests);
    var d := DedupById(best + top);
    var combined := Take(d, limit);
    assert Recommended(catalog, personality, interests, limit) == if |combined| > 0 then combined else SliceTo(top, limit);
    if |combined| > 0 {
      DedupUnique(best + top);
      assert combined == d[..|combined|];
    } else if top != [] {
      DedupNonEmpty(best + top);
      assert false;
    }
  }

  /** With unique ids and a positive `limit`, the list is the first
      `limit` careers of the ranking (all of them when there are fewer):
      the careers that scored come first, and the top-up continues the
      ranking where they end. */
  lemma UniqueIdsGiveRankingPrefix(catalog: seq<Career>, personality: string, interests: seq<string>, limit: int)
    requires UniqueIds(catalog) && limit > 0
    ensures var r := Recommended(catalog, personality, interests, limit);
      && r == Take(Top(catalog, ToUpper(personality), interests), limit)
      && |r| == if limit < |catalog| then limit else |catalog|
  {
    var p := ToUpper(personality);
    var best := Best(catalog, p, interests);
    var top := Top(catalog, p, interests);
    TopIsPermutation(catalog, p, interests);
    UniqueIdsPermutation(top, catalog);
    BestIsPrefixOfTop(catalog, p, interests);
    if |best| < limit {
      DedupRepeatLonger(top, |best|, |top|);
      assert top[..|top|] == top;
      assert best + top == top[..|best|] + top[..|top|];
    }
  }

  /** `recommendByPersonality`: with unique ids, the first five of the
      careers listing the code followed by the others, each group in
      catalog order. */
  lemma ByPersonalityOrder(catalog: seq<Career>, personality: string)
    requires UniqueIds(catalog)
    ensures var p := ToUpper(personality);
      Recommended(catalog, personality, [], 5) == Take(OfScore(catalog, p, [], 5) + OfScore(catalog, p, [], 0), 5)
  {
    var p := ToUpper(personality);
    var r := Ranked(catalog, p, []);
    UniqueIdsGiveRankingPrefix(catalog, personality, [], 5);
    RankedScores(catalog, p, []);
    forall i | 0 <= i < |r| ensures r[i].1 == 5 || r[i].1 == 0 {
      NoInterestsScore(r[i].0, personality);
    }
    TwoWeightsSplit(r, 5, 0);
    ItemsAppend(WithWeight(r, 5), WithWeight(r, 0));
    EqualScoresKeepCatalogOrder(catalog, p, [], 5);
    EqualScoresKeepCatalogOrder(catalog, p, [], 0);
  }
}
