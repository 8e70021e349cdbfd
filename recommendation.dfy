/**
 * The career matcher `recommend` (lib/recommendation.ts): every catalog
 * career is scored against a personality code and a list of interests,
 * the careers are stable-sorted by descending score, and the first `limit`
 * careers that scored are returned, topped up from the whole sorted list
 * (without repeating an id) when too few scored.
 */
module Recommendation {
  import opened Options
  import opened Text
  import opened Sequences
  import opened Ranking

  /** A catalog career; `skills` and `personalities` may be absent. */
  datatype Career = Career(
    id: string,
    title: string,
    category: string,
    description: Option<string>,
    skills: Option<seq<string>>,
    personalities: Option<seq<string>>)

  /** `c.skills || []`. */
  function SkillsOf(c: Career): seq<string> {
    if c.skills.Some? then c.skills.value else []
  }

  /** `xs.map(x => x.toUpperCase())`. */
  function UpperAll(xs: seq<string>): (r: seq<string>)
    ensures |r| == |xs| && forall i :: 0 <= i < |xs| ==> r[i] == ToUpper(xs[i])
  {
    seq(|xs|, i requires 0 <= i < |xs| => ToUpper(xs[i]))
  }

  // ---------------------------------------------------------------------
  // Scoring one career (`scoreCareer`)

  /** +5 when the career lists the (upper-cased) personality code p. */
  function PersonalityBonus(c: Career, p: string): nat {
    if c.personalities.Some? && p != [] && p in UpperAll(c.personalities.value) then 5 else 0
  }

  /** What one (interest, skill) pair adds: 3 when they are equal ignoring
      case, else 1 when either contains the other ignoring case. */
  function PairScore(interest: string, skill: string): nat {
    var lit := ToLower(interest);
    var ls := ToLower(skill);
    if ls == lit then 3
    else if Includes(ls, lit) || Includes(lit, ls) then 1
    else 0
  }

  /** What one interest adds over all skills. */
  function RowScore(interest: string, skills: seq<string>): nat {
    if skills == [] then 0
    else RowScore(interest, skills[..|skills| - 1]) + PairScore(interest, skills[|skills| - 1])
  }

  /** What all interests add over all skills. */
  function InterestScore(interests: seq<string>, skills: seq<string>): nat {
    if interests == [] then 0
    else InterestScore(interests[..|interests| - 1], skills) + RowScore(interests[|interests| - 1], skills)
  }

  /** The score of career c for the upper-cased code p. */
  function CareerScore(c: Career, p: string, interests: seq<string>): nat {
    PersonalityBonus(c, p) + InterestScore(interests, SkillsOf(c))
  }

  /** `scoreCareer(c)`: the personality bonus, then every interest against
      every skill. */
  method ScoreCareer(c: Career, p: string, interests: seq<string>) returns (score: int)
    ensures score == CareerScore(c, p, interests)
  {
    score := 0;
    if c.personalities.Some? && p != [] {
      if p in UpperAll(c.personalities.value) {
        score := score + 5;
      }
    }
    var skills := SkillsOf(c);
    var i := 0;
    while i < |interests|
      invariant 0 <= i <= |interests|
      invariant score == PersonalityBonus(c, p) + InterestScore(interests[..i], skills)
    {
      var lit := ToLower(interests[i]);
      var j := 0;
      while j < |skills|
        invariant 0 <= j <= |skills|
        invariant score == PersonalityBonus(c, p) + InterestScore(interests[..i], skills) + RowScore(interests[i], skills[..j])
      {
        var ls := ToLower(skills[j]);
        if ls == lit {
          score := score + 3;
        } else if Includes(ls, lit) || Includes(lit, ls) {
          score := score + 1;
        }
        assert skills[..j + 1][..j] == skills[..j];
        j := j + 1;
      }
      assert skills[..j] == skills;
      assert interests[..i + 1][..i] == interests[..i];
      i := i + 1;
    }
    assert interests[..i] == interests;
  }

  // ---------------------------------------------------------------------
  // Ranking the catalog

  /** `careers.map(c => ({ c, score: scoreCareer(c) }))`. */
  function ScoreAll(catalog: seq<Career>, p: string, interests: seq<string>): (r: seq<(Career, int)>)
    ensures |r| == |catalog|
    ensures forall i :: 0 <= i < |catalog| ==> r[i] == (catalog[i], CareerScore(catalog[i], p, interests) as int)
  {
    seq(|catalog|, i requires 0 <= i < |catalog| => (catalog[i], CareerScore(catalog[i], p, interests) as int))
  }

  /** `scored` after `scored.sort((a, b) => b.score - a.score)`. */
  function Ranked(catalog: seq<Career>, p: string, interests: seq<string>): seq<(Career, int)> {
    SortByWeight(ScoreAll(catalog, p, interests))
  }

  /** `.filter(s => s.score > 0)`. */
  function Positive(s: seq<(Career, int)>): seq<(Career, int)> {
    if s == [] then []
    else (if s[0].1 > 0 then [s[0]] else []) + Positive(s[1..])
  }

  /** `best`: the careers that scored, best first. */
  function Best(catalog: seq<Career>, p: string, interests: seq<string>): seq<Career> {
    Items(Positive(Ranked(catalog, p, interests)))
  }

  /** `top`: every career, best first. */
  function Top(catalog: seq<Career>, p: string, interests: seq<string>): seq<Career> {
    Items(Ranked(catalog, p, interests))
  }

  // ---------------------------------------------------------------------
  // Deduplicating by id

  function Ids(s: seq<Career>): (r: seq<string>)
    ensures |r| == |s| && forall i :: 0 <= i < |s| ==> r[i] == s[i].id
  {
    seq(|s|, i requires 0 <= i < |s| => s[i].id)
  }

  /** No id occurs twice. */
  predicate UniqueIds(s: seq<Career>) {
    forall i, j :: 0 <= i < j < |s| ==> s[i].id != s[j].id
  }

  /** Each career whose id has not been seen before, in order: what the
      `seen` set lets through. */
  function DedupById(s: seq<Career>): seq<Career> {
    if s == [] then []
    else
      var d := DedupById(s[..|s| - 1]);
      if s[|s| - 1].id in Ids(d) then d else d + [s[|s| - 1]]
  }

  /** Deduplicating a prefix gives a prefix of the deduplicated whole. */
  lemma {:induction false} DedupPrefix(s: seq<Career>, k: nat)
    requires k <= |s|
    ensures |DedupById(s[..k])| <= |DedupById(s)|
    ensures DedupById(s)[..|DedupById(s[..k])|] == DedupById(s[..k])
  {
    if k < |s| {
      var init := s[..|s| - 1];
      DedupPrefix(init, k);
      assert init[..k] == s[..k];
    } else {
      assert s[..k] == s;
    }
  }

  // ---------------------------------------------------------------------
  // recommend

  /** The list `recommend(personality, interests, limit)` returns. */
  function Recommended(catalog: seq<Career>, personality: string, interests: seq<string>, limit: int): seq<Career> {
    var p := ToUpper(personality);
    var best := Best(catalog, p, interests);
    if |best| >= limit then SliceTo(best, limit)
    else
      var top := Top(catalog, p, interests);
      var combined := Take(DedupById(best + top), limit);
      if |combined| > 0 then combined else SliceTo(top, limit)
  }

  method Recommend(catalog: seq<Career>, personality: string, interests: seq<string>, limit: int)
    returns (r: seq<Career>)
    ensures r == Recommended(catalog, personality, interests, limit)
  {
    var p := ToUpper(personality);
    var scored := ScoreCatalog(catalog, p, interests);
    var sorted := SortByWeight(scored);
    var best := Items(Positive(sorted));
    if |best| >= limit {
      return SliceTo(best, limit);
    }
    var top := Items(sorted);
    var combined := CombineUnique(best + top, limit);
    r := if |combined| > 0 then combined else SliceTo(top, limit);
  }

  /** `careers.map(c => ({ c, score: scoreCareer(c) }))`, one career at a
      time. */
  method ScoreCatalog(catalog: seq<Career>, p: string, interests: seq<string>) returns (scored: seq<(Career, int)>)
    ensures scored == ScoreAll(catalog, p, interests)
  {
    scored := [];
    var k := 0;
    while k < |catalog|
      invariant 0 <= k <= |catalog|
      invariant |scored| == k
      invariant forall i :: 0 <= i < k ==> scored[i] == (catalog[i], CareerScore(catalog[i], p, interests) as int)
    {
      var score := ScoreCareer(catalog[k], p, interests);
      scored := scored + [(catalog[k], score)];
      k := k + 1;
    }
  }

  /** The fallback loop: walks `[...best, ...top]`, keeps each career whose
      id is new, and stops once `limit` careers are kept. */
  method CombineUnique(pool: seq<Career>, limit: int) returns (combined: seq<Career>)
    requires limit > 0
    ensures combined == Take(DedupById(pool), limit)
  {
    var seen: set<string> := {};
    combined := [];
    ghost var stopped := false;
    var j := 0;
    while j < |pool|
      invariant 0 <= j <= |pool|
      invariant combined == DedupById(pool[..j])
      invariant forall id :: id in seen <==> id in Ids(combined)
      invariant |combined| < limit
    {
      var career := pool[j];
      assert pool[..j + 1][..j] == pool[..j];
      if career.id !in seen {
        assert Ids(combined + [career]) == Ids(combined) + [career.id];
        seen := seen + {career.id};
        combined := combined + [career];
        if |combined| >= limit {
          DedupPrefix(pool, j + 1);
          stopped := true;
          break;
        }
      }
      j := j + 1;
    }
    if !stopped {
      assert pool[..j] == pool;
    }
  }

  /** `recommendByPersonality(p)`: no interests, at most five careers. */
  method RecommendByPersonality(catalog: seq<Career>, personality: string) returns (r: seq<Career>)
    ensures r == Recommended(catalog, personality, [], 5)
  {
    r := Recommend(catalog, personality, [], 5);
  }
}
