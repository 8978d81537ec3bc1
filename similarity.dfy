/** The positional similarity score `simpleSimilarity`. */
module Similarity {

  function Min(a: nat, b: nat): nat { if a <= b then a else b }

  /** The number of positions below `k` at which `s1` and `s2` hold the same character. */
  function Matches(s1: string, s2: string, k: nat): (m: nat)
    requires k <= |s1| && k <= |s2|
    ensures m <= k
  {
    if k == 0 then 0
    else Matches(s1, s2, k - 1) + (if s1[k - 1] == s2[k - 1] then 1 else 0)
  }

  /** The score of the pair: `2 * matches / (len1 + len2)`, and 0 when both strings are empty. */
  function Score(s1: string, s2: string): real {
    if |s1| + |s2| == 0 then 0.0
    else (2 * Matches(s1, s2, Min(|s1|, |s2|))) as real / (|s1| + |s2|) as real
  }

  /** `simpleSimilarity`: counts equal positions up to the shorter length. */
  method SimpleSimilarity(str1: string, str2: string) returns (score: real)
    ensures score == Score(str1, str2)
    ensures 0.0 <= score <= 1.0
  {
    var len1, len2 := |str1|, |str2|;
    var maxLen := if len1 >= len2 then len1 else len2;
    if maxLen == 0 {
      return 0.0;
    }
    var matchCount := 0;
    var i := 0;
    while i < Min(len1, len2)
      invariant 0 <= i <= Min(len1, len2)
      invariant matchCount == Matches(str1, str2, i)
    {
      if str1[i] == str2[i] {
        matchCount := matchCount + 1;
      }
      i := i + 1;
    }
    score := (matchCount * 2) as real / (len1 + len2) as real;
    ScoreBounds(str1, str2);
  }

  lemma ScoreBounds(s1: string, s2: string)
    ensures 0.0 <= Score(s1, s2) <= 1.0
  {
    if |s1| + |s2| > 0 {
      var m := Matches(s1, s2, Min(|s1|, |s2|));
      assert 2 * m <= |s1| + |s2|;
      QuotientUnit((2 * m) as real, (|s1| + |s2|) as real);
    }
  }

  lemma QuotientUnit(a: real, b: real)
    requires 0.0 <= a <= b && b > 0.0
    ensures 0.0 <= a / b <= 1.0
  {
    assert a / b * b == a;
  }

  lemma {:induction false} MatchesSymmetric(s1: string, s2: string, k: nat)
    requires k <= |s1| && k <= |s2|
    ensures Matches(s1, s2, k) == Matches(s2, s1, k)
  {
    if k > 0 {
      MatchesSymmetric(s1, s2, k - 1);
    }
  }

  lemma ScoreSymmetric(s1: string, s2: string)
    ensures Score(s1, s2) == Score(s2, s1)
  {
    MatchesSymmetric(s1, s2, Min(|s1|, |s2|));
  }

  lemma {:induction false} MatchesSelf(s: string, k: nat)
    requires k <= |s|
    ensures Matches(s, s, k) == k
  {
    if k > 0 {
      MatchesSelf(s, k - 1);
    }
  }

  /** A non-empty string is a perfect match for itself. */
  lemma {:induction false} ScoreSelf(s: string)
    requires |s| > 0
    ensures Score(s, s) == 1.0
  {
    MatchesSelf(s, |s|);
    var n := (2 * |s|) as real;
    assert Score(s, s) == n / n;
    QuotientSelf(n);
  }

  lemma QuotientSelf(x: real)
    requires x > 0.0
    ensures x / x == 1.0
  {
  }

  /** The 0.8 threshold in integers: `2m / (len1 + len2) >= 4/5` iff `5m >= 2 (len1 + len2)`. */
  lemma {:induction false} ThresholdInIntegers(s1: string, s2: string)
    requires |s1| + |s2| > 0
    ensures Score(s1, s2) >= 0.8
        <==> 5 * Matches(s1, s2, Min(|s1|, |s2|)) >= 2 * (|s1| + |s2|)
  {
    var m := Matches(s1, s2, Min(|s1|, |s2|));
    var n := (|s1| + |s2|) as real;
    AtLeastQuotient((2 * m) as real, n, 0.8);
  }

  lemma AtLeastQuotient(a: real, b: real, c: real)
    requires b > 0.0
    ensures a / b >= c <==> a >= c * b
  {
    assert a / b * b == a;
    if a / b >= c {
      assert a / b * b >= c * b;
    }
  }
}
