/** Relevance scores over exact reals. */
module Scoring {
  import opened Basics
  import opened Text

  function Clamp01(x: real): real {
    if x <= 0.0 then 0.0 else if x >= 1.0 then 1.0 else x
  }

  // ----- weights

  datatype Weights = Weights(keyword: real, recency: real, source: real)

  function NormalizeWeights(w: Weights): Weights {
    var sum := w.keyword + w.recency + w.source;
    if sum <= 0.0 then Weights(0.5, 0.3, 0.2)
    else Weights(w.keyword / sum, w.recency / sum, w.source / sum)
  }

  /** What configured weights become: shares of one. */
  ghost predicate Shares(w: Weights) {
    w.keyword >= 0.0 && w.recency >= 0.0 && w.source >= 0.0 && w.keyword + w.recency + w.source == 1.0
  }

  lemma Quotient(a: real, b: real)
    requires b > 0.0
    ensures (a / b) * b == a
    ensures a >= 0.0 ==> a / b >= 0.0
  {
  }

  lemma SharesOfSum(a: real, b: real, c: real)
    requires a + b + c > 0.0
    ensures a / (a + b + c) + b / (a + b + c) + c / (a + b + c) == 1.0
  {
  }

  /** Weights that are not negative become shares in the same proportions; shares stay as they are. */
  lemma NormalizedWeightsAreShares(w: Weights)
    requires w.keyword >= 0.0 && w.recency >= 0.0 && w.source >= 0.0
    ensures Shares(NormalizeWeights(w)) && (Shares(w) ==> NormalizeWeights(w) == w)
    ensures w == Weights(0.0, 0.0, 0.0) ==> NormalizeWeights(w) == Weights(0.5, 0.3, 0.2)
  {
    var sum := w.keyword + w.recency + w.source;
    if sum > 0.0 {
      Quotient(w.keyword, sum);
      Quotient(w.recency, sum);
      Quotient(w.source, sum);
      SharesOfSum(w.keyword, w.recency, w.source);
    }
  }

  lemma NormalizingKeepsProportions(w: Weights)
    requires w.keyword + w.recency + w.source > 0.0
    ensures var n := NormalizeWeights(w);
            && n.keyword * w.recency == n.recency * w.keyword
            && n.recency * w.source == n.source * w.recency
            && n.keyword * w.source == n.source * w.keyword
  {
  }

  // ----- keywords

  const DAMPING := 2.0

  /** The case-folded keywords that are not blank. */
  function Keys(keywords: seq<string>): set<string> {
    set k | k in keywords && Trim(k) != "" :: Lower(Trim(k))
  }

  function Matches(text: string, keys: set<string>): set<string> {
    set key | key in keys && Includes(text, key)
  }

  function Boosted(matches: nat, total: nat): real
    requires matches <= total
  {
    if matches == 0 then 0.0
    else
      Clamp01(Boost(matches as real / total as real, matches as real / (matches as real + DAMPING)))
  }

  function Boost(coverage: real, influence: real): real {
    coverage + (1.0 - coverage) * influence
  }

  lemma MatchesAreKeys(text: string, keys: set<string>)
    ensures |Matches(text, keys)| <= |keys|
  {
    SubsetSize(Matches(text, keys), keys);
  }

  /** The trimmed keywords that match, each case-folded one at its first occurrence. */
  function Matched(text: string, keywords: seq<string>): seq<string> {
    if keywords == [] then []
    else
      var before := keywords[..|keywords| - 1];
      var original := Trim(keywords[|keywords| - 1]);
      Matched(text, before)
      + if original != "" && Lower(original) !in Keys(before) && Includes(text, Lower(original)) then [original] else []
  }

  /** Keyword i is not blank, none before it is the same up to case, and it occurs in the text. */
  ghost predicate IsNewMatch(text: string, keywords: seq<string>, i: nat) {
    && i < |keywords| && !Blank(keywords[i]) && Occurs(text, Lower(Trim(keywords[i])))
    && forall j | 0 <= j < i :: !Blank(keywords[j]) ==> Lower(Trim(keywords[j])) != Lower(Trim(keywords[i]))
  }

  ghost predicate IsTrimOf(keywords: seq<string>, i: nat, m: string) {
    i < |keywords| && m == Trim(keywords[i])
  }

  ghost function Positions(n: nat): seq<nat> {
    seq(n, i => i)
  }

  lemma KeysBefore(keywords: seq<string>, i: nat, key: string)
    requires i <= |keywords|
    ensures key in Keys(keywords[..i])
            <==> exists j | 0 <= j < i :: Trim(keywords[j]) != "" && Lower(Trim(keywords[j])) == key
  {
    hide Lower, Trim;
    var before := keywords[..i];
    assert forall j | 0 <= j < i :: before[j] in before && before[j] == keywords[j];
    if key in Keys(before) {
      var k :| k in before && Trim(k) != "" && Lower(Trim(k)) == key;
      var j :| 0 <= j < i && before[j] == k;
    }
  }

  lemma BlanksAre(keywords: seq<string>)
    ensures forall j | 0 <= j < |keywords| :: Blank(keywords[j]) <==> Trim(keywords[j]) == ""
  {
    forall j | 0 <= j < |keywords| ensures Blank(keywords[j]) <==> Trim(keywords[j]) == "" {
      BlankIffTrimmedAway(keywords[j]);
    }
  }

  lemma NewMatchIs(text: string, keywords: seq<string>, i: nat)
    requires i < |keywords|
    ensures var original := Trim(keywords[i]);
            IsNewMatch(text, keywords, i)
            <==> original != "" && Lower(original) !in Keys(keywords[..i]) && Includes(text, Lower(original))
  {
    hide Blank, Occurs, Includes, Lower, Trim, Keys;
    BlanksAre(keywords);
    IncludesIffOccurs(text, Lower(Trim(keywords[i])));
    KeysBefore(keywords, i, Lower(Trim(keywords[i])));
  }

  lemma MatchAdded(text: string, keywords: seq<string>, n: nat, matched: seq<string>)
    requires n < |keywords|
    requires Stand(Positions(n), (i: nat) => IsNewMatch(text, keywords, i),
                   (i: nat, m: string) => IsTrimOf(keywords, i, m), matched)
    ensures Stand(Positions(n + 1), (i: nat) => IsNewMatch(text, keywords, i),
                  (i: nat, m: string) => IsTrimOf(keywords, i, m),
                  matched + if IsNewMatch(text, keywords, n) then [Trim(keywords[n])] else [])
  {
    hide Stand, IsNewMatch, Trim;
    assert Positions(n) + [n] == Positions(n + 1);
    StandSnoc(Positions(n), (i: nat) => IsNewMatch(text, keywords, i), (i: nat, m: string) => IsTrimOf(keywords, i, m),
              matched, n, Trim(keywords[n]));
  }

  /** The keywords reported as matching: trimmed, in order, and each once up to case. */
  lemma {:induction false} MatchedStand(text: string, keywords: seq<string>, n: nat)
    requires n <= |keywords|
    ensures Stand(Positions(n), (i: nat) => IsNewMatch(text, keywords, i),
                  (i: nat, m: string) => IsTrimOf(keywords, i, m), Matched(text, keywords[..n]))
    decreases n
  {
    hide Stand, IsNewMatch, Trim, Lower, Keys, Includes;
    if n == 0 {
      assert Positions(0) == [] && keywords[..0] == [];
      StandNone((i: nat) => IsNewMatch(text, keywords, i), (i: nat, m: string) => IsTrimOf(keywords, i, m));
    } else {
      MatchedStand(text, keywords, n - 1);
      NewMatchIs(text, keywords, n - 1);
      assert keywords[..n][..n - 1] == keywords[..n - 1];
      MatchAdded(text, keywords, n - 1, Matched(text, keywords[..n - 1]));
    }
  }

  /** The score as a function of the keywords' case-folded set. */
  function KeywordScore(title: string, body: string, keywords: seq<string>): real {
    var text, keys := Lower(title + " " + body), Keys(keywords);
    MatchesAreKeys(text, keys);
    Boosted(|Matches(text, keys)|, |keys|)
  }

  /** Order, repetition, case and surrounding white space of the keywords do not matter. */
  lemma ScoreDependsOnKeys(title: string, body: string, a: seq<string>, b: seq<string>)
    requires forall k | k in a :: Trim(k) != "" ==> Lower(Trim(k)) in Keys(b)
    requires forall k | k in b :: Trim(k) != "" ==> Lower(Trim(k)) in Keys(a)
    ensures KeywordScore(title, body, a) == KeywordScore(title, body, b)
  {
    hide Trim, Lower, Includes;
    assert Keys(a) == Keys(b);
  }

  /** What the score misses to one, times the keywords and the matches plus two, is twice the keywords missed. */
  ghost predicate IsScoreOf(score: real, matches: nat, total: nat) {
    if matches == 0 then score == 0.0
    else (1.0 - score) * (total as real * (matches as real + 2.0)) == 2.0 * (total as real - matches as real)
  }

  lemma BoostedIsScore(matches: nat, total: nat)
    requires matches <= total
    ensures IsScoreOf(Boosted(matches, total), matches, total)
  {
    hide Boosted;
    if matches == 0 {
      NoneBoosted(total);
    } else {
      var m, t := matches as real, total as real;
      PositiveProduct(t, m + 2.0);
      BoostedIsOneMinusShortfall(matches, total);
      Quotient((t - m) * 2.0, t * (m + 2.0));
      assert Shortfall(m, t) * (t * (m + 2.0)) == (t - m) * 2.0;
    }
  }

  /**
    The score from the texts: the keywords are told apart by their trimmed lower-case form, blank ones do
    not count, and one matches when it occurs in the lower-case title, a space, and the body.
   */
  lemma KeywordScoreCounts(title: string, body: string, keywords: seq<string>)
    ensures var keys := set k | k in keywords && !Blank(k) :: Lower(Trim(k));
            var hits := set key | key in keys && Occurs(Lower(title + " " + body), key);
            IsScoreOf(KeywordScore(title, body, keywords), |hits|, |keys|)
  {
    var text := Lower(title + " " + body);
    KeysAre(keywords);
    MatchesAre(text, Keys(keywords));
    hide Keys, Matches, Lower, Trim, Blank, Occurs, Boosted, IsScoreOf;
    MatchesAreKeys(text, Keys(keywords));
    BoostedIsScore(|Matches(text, Keys(keywords))|, |Keys(keywords)|);
  }

  lemma NoneBoosted(total: nat)
    ensures Boosted(0, total) == 0.0
  {
  }

  lemma KeysAre(keywords: seq<string>)
    ensures Keys(keywords) == set k | k in keywords && !Blank(k) :: Lower(Trim(k))
  {
    forall k { BlankIffTrimmedAway(k); }
    hide Trim, Lower, Blank;
  }

  lemma MatchesAre(text: string, keys: set<string>)
    ensures Matches(text, keys) == set key | key in keys && Occurs(text, key)
  {
    forall key { IncludesIffOccurs(text, key); }
    hide Includes, Occurs;
  }

  lemma KeysSnoc(keywords: seq<string>, k: string)
    ensures Keys(keywords + [k]) == Keys(keywords) + if Trim(k) != "" then {Lower(Trim(k))} else {}
  {
    hide Trim, Lower;
  }

  lemma MatchesOne(text: string, keys: set<string>, key: string)
    requires key !in keys
    ensures |Matches(text, keys + {key})| == |Matches(text, keys)| + if Includes(text, key) then 1 else 0
  {
    hide Includes;
    if Includes(text, key) {
      assert Matches(text, keys + {key}) == Matches(text, keys) + {key};
    } else {
      assert Matches(text, keys + {key}) == Matches(text, keys);
    }
  }

  /** A keyword counts unless it is blank or was seen before. */
  lemma OneMore(text: string, keywords: seq<string>, i: nat)
    requires i < |keywords|
    ensures var before, after := keywords[..i], keywords[..i + 1];
            var original := Trim(keywords[i]);
            var key := Lower(original);
            if original == "" || key in Keys(before) then
              Keys(after) == Keys(before) && Matched(text, after) == Matched(text, before)
            else if Includes(text, key) then
              && Keys(after) == Keys(before) + {key} && Matched(text, after) == Matched(text, before) + [original]
              && |Matches(text, Keys(after))| == |Matches(text, Keys(before))| + 1
            else
              && Keys(after) == Keys(before) + {key} && Matched(text, after) == Matched(text, before)
              && |Matches(text, Keys(after))| == |Matches(text, Keys(before))|
  {
    hide Trim, Lower, Includes, Matches, Keys;
    var before := keywords[..i];
    assert keywords[..i + 1] == before + [keywords[i]] && keywords[..i + 1][..i] == before;
    KeysSnoc(before, keywords[i]);
    var key := Lower(Trim(keywords[i]));
    if key !in Keys(before) {
      MatchesOne(text, Keys(before), key);
    }
  }

  /**
    The loop's counters describe sets: so many case-folded keywords occur in the text, each reported once.
    The score depends on nothing else.
   */
  method ComputeKeywordScore(title: string, body: string, keywords: seq<string>)
    returns (score: real, matchedKeywords: seq<string>)
    ensures score == KeywordScore(title, body, keywords)
    ensures var text := Lower(title + " " + body);
            matchedKeywords == Matched(text, keywords) && |matchedKeywords| == |Matches(text, Keys(keywords))|
  {
    hide Lower, Trim, Includes, Boosted;
    var text := Lower(title + " " + body);
    var matches: nat := 0;
    var seen: set<string> := {};
    matchedKeywords := [];
    var i := 0;
    assert keywords[..0] == [] && Keys([]) == {} && Matches(text, {}) == {} && Matched(text, []) == [];
    hide Keys, Matches, Matched;
    while i < |keywords|
      invariant 0 <= i <= |keywords|
      invariant seen == Keys(keywords[..i])
      invariant matches == |matchedKeywords| == |Matches(text, seen)|
      invariant matchedKeywords == Matched(text, keywords[..i])
    {
      OneMore(text, keywords, i);
      var original := Trim(keywords[i]);
      var key := Lower(original);
      if original != "" && key !in seen {
        seen := seen + {key};
        if Includes(text, key) {
          matches := matches + 1;
          matchedKeywords := matchedKeywords + [original];
        }
      }
      i := i + 1;
    }
    assert keywords[..i] == keywords;
    MatchesAreKeys(text, seen);
    score := FinalScore(matches, |seen|);
  }

  method FinalScore(matches: nat, total: nat) returns (score: real)
    requires matches <= total
    ensures score == Boosted(matches, total)
  {
    if total == 0 || matches == 0 {
      return 0.0;
    }
    var coverage := matches as real / total as real;
    var matchInfluence := matches as real / (matches as real + DAMPING);
    score := Clamp01(Boost(coverage, matchInfluence));
  }

  /** What the score misses to one, in closed form. */
  function Shortfall(matches: real, total: real): real
    requires 0.0 <= matches <= total && total > 0.0
  {
    PositiveProduct(total, matches + 2.0);
    ((total - matches) * 2.0) / (total * (matches + 2.0))
  }

  lemma PositiveProduct(a: real, b: real)
    requires a > 0.0 && b > 0.0
    ensures a * b > 0.0
  {
  }

  lemma FractionBounds(a: real, b: real)
    requires b > 0.0 && 0.0 <= a <= b
    ensures 0.0 <= a / b <= 1.0
    ensures a / b == 1.0 <==> a == b
    ensures a / b == 0.0 <==> a == 0.0
  {
  }

  lemma Complement(a: real, b: real) returns (u: real)
    requires b > 0.0
    ensures u == 1.0 - a / b && u * b == b - a
  {
    Quotient(a, b);
    var x := a / b;
    u := 1.0 - x;
    assert u * b == b - x * b;
  }

  lemma Rearranged(c: real, f: real, u: real, v: real)
    requires u == 1.0 - c && v == 1.0 - f
    ensures Boost(c, f) == 1.0 - u * v
  {
  }

  lemma ShortfallIsProduct(m: real, t: real, u: real, v: real)
    requires 0.0 <= m <= t && t > 0.0 && u * t == t - m && v * (m + 2.0) == 2.0
    ensures u * v == Shortfall(m, t)
  {
  }

  lemma BoostIsOneMinusShortfall(m: real, t: real)
    requires 0.0 <= m <= t && t > 0.0
    ensures m / t <= Boost(m / t, m / (m + 2.0)) == 1.0 - Shortfall(m, t) <= 1.0
    ensures 0.0 <= m / t
  {
    hide Shortfall, Boost;
    FractionBounds(m, t);
    FractionBounds(m, m + 2.0);
    var u := Complement(m, t);
    var v := Complement(m, m + 2.0);
    ShortfallIsProduct(m, t, u, v);
    Rearranged(m / t, m / (m + 2.0), u, v);
    UnitProduct(u, v);
  }

  lemma BoostedIsOneMinusShortfall(matches: nat, total: nat)
    requires matches <= total && total > 0
    ensures Boosted(matches, total) == 1.0 - Shortfall(matches as real, total as real)
    ensures 0.0 <= Shortfall(matches as real, total as real) <= 1.0
    ensures matches as real / total as real <= Boosted(matches, total)
  {
    hide Shortfall, Boost;
    BoostIsOneMinusShortfall(matches as real, total as real);
    if matches == 0 {
      FractionBounds(0.0, total as real);
      NoMatchFallsShort(total as real);
    }
  }

  lemma NoMatchFallsShort(total: real)
    requires total > 0.0
    ensures Shortfall(0.0, total) == 1.0
  {
  }

  lemma UnitProduct(a: real, b: real)
    requires 0.0 <= a <= 1.0 && 0.0 <= b <= 1.0
    ensures 0.0 <= a * b <= 1.0 && a * b <= a
    ensures a > 0.0 && b < 1.0 ==> a * b < a
  {
  }

  lemma LessFraction(a: real, b: real, c: real, d: real)
    requires b > 0.0 && d > 0.0 && a * d < c * b
    ensures a / b < c / d
  {
  }

  lemma ShortfallShrinks(m: real, t: real)
    requires 0.0 <= m && m + 1.0 <= t
    ensures Shortfall(m + 1.0, t) < Shortfall(m, t)
  {
    Cross(m, t);
    LessFraction((t - (m + 1.0)) * 2.0, t * (m + 1.0 + 2.0), (t - m) * 2.0, t * (m + 2.0));
  }

  /** One more match raises the score. */
  lemma OneMoreMatch(matches: nat, total: nat)
    requires matches < total
    ensures Boosted(matches, total) < Boosted(matches + 1, total)
  {
    hide Boosted, Shortfall;
    BoostedIsOneMinusShortfall(matches, total);
    BoostedIsOneMinusShortfall(matches + 1, total);
    ShortfallShrinks(matches as real, total as real);
  }

  lemma Cross(m: real, t: real)
    requires 0.0 <= m < t
    ensures t * (m + 1.0 + 2.0) > 0.0 && t * (m + 2.0) > 0.0
    ensures (t - (m + 1.0)) * 2.0 * (t * (m + 2.0)) < (t - m) * 2.0 * (t * (m + 1.0 + 2.0))
  {
  }

  lemma {:induction false} MoreMatches(few: nat, many: nat, total: nat)
    requires few < many <= total
    ensures Boosted(few, total) < Boosted(many, total)
    decreases many
  {
    hide Boosted;
    OneMoreMatch(many - 1, total);
    if few < many - 1 {
      MoreMatches(few, many - 1, total);
    }
  }

  /** The score lies between the coverage and one, and is one exactly when every keyword matches. */
  lemma BoostedBounds(matches: nat, total: nat)
    requires matches <= total && total > 0
    ensures matches as real / total as real <= Boosted(matches, total) <= 1.0
    ensures Boosted(matches, total) == 1.0 <==> matches == total
    ensures Boosted(matches, total) == 0.0 <==> matches == 0
  {
  }

  lemma FullCoverage(t: real)
    requires t > 0.0
    ensures Shortfall(t, t) == 0.0
  {
  }

  /** Another keyword raises the score if it occurs in the text and lowers it if it does not. */
  lemma OneMoreKeyword(matches: nat, total: nat)
    requires matches <= total && total > 0
    ensures Boosted(matches, total) <= Boosted(matches + 1, total + 1)
    ensures Boosted(matches, total + 1) <= Boosted(matches, total)
    ensures matches < total ==> Boosted(matches, total) < Boosted(matches + 1, total + 1)
    ensures matches > 0 ==> Boosted(matches, total + 1) < Boosted(matches, total)
  {
    hide Boosted, Shortfall;
    var m, t := matches as real, total as real;
    BoostedIsOneMinusShortfall(matches, total);
    BoostedIsOneMinusShortfall(matches + 1, total + 1);
    BoostedIsOneMinusShortfall(matches, total + 1);
    if matches < total { ShortfallWithMatch(m, t); }
    if matches > 0 { ShortfallWithoutMatch(m, t); }
    if matches == total { FullCoverage(t); FullCoverage(t + 1.0); }
    if matches == 0 { NoMatchFallsShort(t); NoMatchFallsShort(t + 1.0); }
  }

  lemma ShortfallWithMatch(m: real, t: real)
    requires 0.0 <= m && m + 1.0 <= t
    ensures Shortfall(m + 1.0, t + 1.0) < Shortfall(m, t)
  {
    var a, b, c := (t - m) * 2.0, t * (m + 2.0), (t + 1.0) * (m + 3.0);
    PositiveProduct(t, m + 2.0);
    PositiveProduct(t + 1.0, m + 3.0);
    assert b < c by { assert c == t * (m + 2.0) + t + (m + 3.0); }
    assert a * b < a * c by { assert a * (c - b) > 0.0; }
    LessFraction(a, c, a, b);
  }

  lemma ShortfallWithoutMatch(m: real, t: real)
    requires 0.0 < m <= t
    ensures Shortfall(m, t) < Shortfall(m, t + 1.0)
  {
    var d := m + 2.0;
    PositiveProduct(t, d);
    PositiveProduct(t + 1.0, d);
    var a, c := (t - m) * 2.0, (t + 1.0 - m) * 2.0;
    assert a * (t + 1.0) < c * t by { assert c * t - a * (t + 1.0) == 2.0 * m; }
    assert (c * t - a * (t + 1.0)) * d > 0.0;
    assert a * ((t + 1.0) * d) < c * (t * d);
    LessFraction(a, t * d, c, (t + 1.0) * d);
  }

  // ----- the total

  function Total(keyword: real, recency: real, source: real, w: Weights): real {
    Clamp01(WeightedSum(keyword, recency, source, w))
  }

  function WeightedSum(keyword: real, recency: real, source: real, w: Weights): real {
    keyword * w.keyword + recency * w.recency + source * w.source
  }

  function Least(a: real, b: real): real {
    if a <= b then a else b
  }

  function Greatest(a: real, b: real): real {
    if a <= b then b else a
  }

  /** The total lies between the least and the greatest component. */
  lemma TotalIsBetween(k: real, r: real, s: real, w: Weights)
    requires Shares(w) && 0.0 <= k <= 1.0 && 0.0 <= r <= 1.0 && 0.0 <= s <= 1.0
    ensures Least(k, Least(r, s)) <= Total(k, r, s, w) <= Greatest(k, Greatest(r, s))
  {
    hide WeightedSum, Shares;
    var lo, hi := Least(k, Least(r, s)), Greatest(k, Greatest(r, s));
    SharesOf(lo, w);
    SharesOf(hi, w);
    WeightedSumIsMonotone(lo, lo, lo, k, r, s, w);
    WeightedSumIsMonotone(k, r, s, hi, hi, hi, w);
  }

  lemma SharesOf(x: real, w: Weights)
    requires Shares(w)
    ensures WeightedSum(x, x, x, w) == x
  {
  }

  lemma WeightedSumIsMonotone(k: real, r: real, s: real, k': real, r': real, s': real, w: Weights)
    requires Shares(w) && k <= k' && r <= r' && s <= s'
    ensures WeightedSum(k, r, s, w) <= WeightedSum(k', r', s', w)
  {
    SumIsMonotone(k, r, s, k', r', s', w.keyword, w.recency, w.source);
  }

  lemma SumIsMonotone(k: real, r: real, s: real, k': real, r': real, s': real, a: real, b: real, c: real)
    requires a >= 0.0 && b >= 0.0 && c >= 0.0 && k <= k' && r <= r' && s <= s'
    ensures k * a + r * b + s * c <= k' * a + r' * b + s' * c
  {
  }

  /** Raising a component never lowers the total. */
  lemma TotalIsMonotone(k: real, r: real, s: real, k': real, r': real, s': real, w: Weights)
    requires Shares(w) && k <= k' && r <= r' && s <= s'
    ensures Total(k, r, s, w) <= Total(k', r', s', w)
  {
    hide WeightedSum;
    WeightedSumIsMonotone(k, r, s, k', r', s', w);
  }

  /** Raising one component raises the total by that much times its own weight. */
  lemma EachComponentHasItsWeight(k: real, r: real, s: real, d: real, w: Weights)
    requires Shares(w) && d >= 0.0 && 0.0 <= k && 0.0 <= r && 0.0 <= s
    ensures k + d <= 1.0 && r <= 1.0 && s <= 1.0 ==> Total(k + d, r, s, w) == Total(k, r, s, w) + d * w.keyword
    ensures k <= 1.0 && r + d <= 1.0 && s <= 1.0 ==> Total(k, r + d, s, w) == Total(k, r, s, w) + d * w.recency
    ensures k <= 1.0 && r <= 1.0 && s + d <= 1.0 ==> Total(k, r, s + d, w) == Total(k, r, s, w) + d * w.source
    ensures Total(0.0, 0.0, 0.0, w) == 0.0
  {
    if k <= 1.0 && r <= 1.0 && s <= 1.0 { InRange(k, r, s, w); }
    if k + d <= 1.0 && r <= 1.0 && s <= 1.0 { InRange(k + d, r, s, w); }
    if k <= 1.0 && r + d <= 1.0 && s <= 1.0 { InRange(k, r + d, s, w); }
    if k <= 1.0 && r <= 1.0 && s + d <= 1.0 { InRange(k, r, s + d, w); }
    hide Shares, Clamp01;
    ClampedAt0();
  }

  lemma ClampedAt0()
    ensures Clamp01(0.0) == 0.0
  {
  }

  lemma InRange(k: real, r: real, s: real, w: Weights)
    requires Shares(w) && 0.0 <= k <= 1.0 && 0.0 <= r <= 1.0 && 0.0 <= s <= 1.0
    ensures Total(k, r, s, w) == WeightedSum(k, r, s, w)
  {
    hide WeightedSum, Shares;
    SharesOf(0.0, w);
    SharesOf(1.0, w);
    WeightedSumIsMonotone(0.0, 0.0, 0.0, k, r, s, w);
    WeightedSumIsMonotone(k, r, s, 1.0, 1.0, 1.0, w);
  }

  datatype Status = Scored | Suppressed

  function StatusFor(total: real, threshold: real): Status {
    if total >= threshold then Scored else Suppressed
  }

  lemma StatusIs(total: real, threshold: real)
    ensures StatusFor(total, threshold) == Scored <==> total >= threshold
  {
  }

  /** Rounds to four decimals, halves upwards. */
  function RoundTo(x: real): real {
    (x * 10000.0 + 0.5).Floor as real / 10000.0
  }

  /** The rounded number has four decimals, and no other such number is nearer; halfway it is the greater one. */
  lemma RoundedIsNearest(x: real) returns (units: int)
    ensures RoundTo(x) == units as real / 10000.0
    ensures x - 0.00005 < RoundTo(x) <= x + 0.00005
  {
    units := (x * 10000.0 + 0.5).Floor;
    assert RoundTo(x) == units as real / 10000.0;
    assert units as real <= x * 10000.0 + 0.5 < units as real + 1.0;
  }

  /** The least number of four decimals that reaches x. */
  function CeilTo(x: real): real {
    -((-x * 10000.0).Floor as real) / 10000.0
  }

  lemma CeilToIsLeast(x: real, units: int)
    ensures x <= CeilTo(x) < x + 0.0001
    ensures x <= units as real / 10000.0 <==> CeilTo(x) <= units as real / 10000.0
  {
    var floor := (-x * 10000.0).Floor;
    assert floor as real <= -x * 10000.0 < floor as real + 1.0;
    assert CeilTo(x) * 10000.0 == -(floor as real);
    assert x <= units as real / 10000.0 <==> -units <= floor;
  }

  lemma ShownReaches(total: real, threshold: real)
    ensures RoundTo(total) >= threshold <==> total >= CeilTo(threshold) - 0.00005
  {
    var units := (total * 10000.0 + 0.5).Floor;
    var ceil := -(-threshold * 10000.0).Floor;
    CeilToIsLeast(threshold, units);
    assert CeilTo(threshold) == ceil as real / 10000.0;
    assert ceil as real / 10000.0 <= units as real / 10000.0 <==> ceil <= units;
    assert ceil <= units <==> ceil as real <= total * 10000.0 + 0.5;
  }

  /**
    The status is decided before rounding, the score shown is rounded. A suppressed item is shown
    with a score that reaches the threshold exactly when it misses the threshold but not by half a
    unit the next number of four decimals; a scored item is shown below the threshold exactly when
    it reaches the threshold but misses that number by more than half a unit.
   */
  lemma ShownAndStatusDisagreeIff(total: real, threshold: real)
    ensures StatusFor(total, threshold) == Suppressed && RoundTo(total) >= threshold
            <==> CeilTo(threshold) - 0.00005 <= total < threshold
    ensures StatusFor(total, threshold) == Scored && RoundTo(total) < threshold
            <==> threshold <= total < CeilTo(threshold) - 0.00005
  {
    ShownReaches(total, threshold);
  }

  /**
    No scored item is shown below the threshold exactly when the next number of four decimals is at
    most half a unit away.
   */
  lemma NeverShownBelowIff(threshold: real)
    ensures (forall total | StatusFor(total, threshold) == Scored :: RoundTo(total) >= threshold)
            <==> CeilTo(threshold) - threshold <= 0.00005
  {
    if CeilTo(threshold) - threshold <= 0.00005 {
      forall total | StatusFor(total, threshold) == Scored ensures RoundTo(total) >= threshold {
        ShownReaches(total, threshold);
      }
    } else {
      ShownReaches(threshold, threshold);
    }
  }

  /** With threshold and total 0.55554 an item is scored and shown with 0.5555. */
  lemma ScoredItemShownBelow()
    ensures StatusFor(0.55554, 0.55554) == Scored && RoundTo(0.55554) == 0.5555
  {
    assert 0.55554 * 10000.0 + 0.5 == 5555.9;
    assert (5555.9).Floor == 5555;
  }
}
