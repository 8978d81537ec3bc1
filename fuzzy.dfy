/**
 * `findSimilarAppId`: the map entries whose key scores at least 0.8 against
 * the normalised folder name, best first, the first five offered to the user,
 * and the user's answer resolved to one of them. The answer typed into the
 * prompt is a parameter (`None` is a cancelled prompt).
 */
module Fuzzy {
  import opened Wrappers
  import opened GameMaps
  import opened Similarity
  import Text

  const MIN_SIMILARITY: real := 0.8
  const MAX_CHOICES: nat := 5

  datatype Candidate = Candidate(name: string, id: string, score: real)

  datatype Match = Match(appId: string, officialName: string)

  /** The `results` array before sorting: qualifying entries in map order. */
  function Candidates(m: GameMap, key: string): (cs: seq<Candidate>)
    ensures |cs| <= |m|
    ensures forall c :: c in cs ==>
              c.score >= MIN_SIMILARITY && c.score == Score(key, c.name) && Entry(c.name, c.id) in m
  {
    if |m| == 0 then []
    else
      var e := m[|m| - 1];
      var init := m[..|m| - 1];
      assert m == init + [e];
      Candidates(init, key)
        + (if Score(key, e.key) >= MIN_SIMILARITY then [Candidate(e.key, e.value, Score(key, e.key))] else [])
  }

  /** Every entry scoring at least 0.8 is among the candidates. */
  lemma {:induction false} CandidatesComplete(m: GameMap, key: string, e: Entry)
    requires e in m && Score(key, e.key) >= MIN_SIMILARITY
    ensures Candidate(e.key, e.value, Score(key, e.key)) in Candidates(m, key)
  {
    var last := m[|m| - 1];
    var init := m[..|m| - 1];
    assert m == init + [last];
    if e != last {
      assert e in init;
      CandidatesComplete(init, key, e);
    }
  }

  predicate SortedByScore(s: seq<Candidate>) {
    forall i, j :: 0 <= i < j < |s| ==> s[i].score >= s[j].score
  }

  /** The candidates with score exactly `v`, in order: what a stable sort must not reorder. */
  function WithScore(s: seq<Candidate>, v: real): seq<Candidate> {
    if |s| == 0 then [] else (if s[0].score == v then [s[0]] else []) + WithScore(s[1..], v)
  }

  lemma {:induction false} WithScoreAppend(a: seq<Candidate>, b: seq<Candidate>, v: real)
    ensures WithScore(a + b, v) == WithScore(a, v) + WithScore(b, v)
  {
    if |a| == 0 {
      assert a + b == b;
    } else {
      var h, t := a[0], a[1..];
      assert a == [h] + t;
      assert a + b == [h] + (t + b);
      WithScoreCons(h, t + b, v);
      WithScoreCons(h, t, v);
      WithScoreAppend(t, b, v);
      Text.ConcatAssoc(WithScore([h], v), WithScore(t, v), WithScore(b, v));
    }
  }

  lemma WithScoreCons(h: Candidate, t: seq<Candidate>, v: real)
    ensures WithScore([h] + t, v) == WithScore([h], v) + WithScore(t, v)
  {
    assert ([h] + t)[1..] == t;
    assert [h][1..] == [];
  }

  lemma {:induction false} WithScoreNone(s: seq<Candidate>, v: real)
    requires forall i :: 0 <= i < |s| ==> s[i].score < v
    ensures WithScore(s, v) == []
  {
    if |s| > 0 {
      WithScoreNone(s[1..], v);
    }
  }

  lemma ConsSorted(x: Candidate, t: seq<Candidate>)
    requires SortedByScore(t)
    requires forall y :: y in multiset(t) ==> x.score >= y.score
    ensures SortedByScore([x] + t)
  {
    var r := [x] + t;
    forall i, j | 0 <= i < j < |r| ensures r[i].score >= r[j].score {
      if i == 0 {
        assert r[j] == t[j - 1];
        assert t[j - 1] in multiset(t);
      }
    }
  }

  lemma HeadIsBest(s: seq<Candidate>)
    requires SortedByScore(s) && |s| > 0
    ensures forall y :: y in multiset(s) ==> s[0].score >= y.score
  {
    forall y | y in multiset(s) ensures s[0].score >= y.score {
      var k :| 0 <= k < |s| && s[k] == y;
    }
  }

  /** Places `c` after every element scoring at least as much, as a stable sort does. */
  function InsertByScore(s: seq<Candidate>, c: Candidate): (r: seq<Candidate>)
    requires SortedByScore(s)
    ensures SortedByScore(r)
    ensures multiset(r) == multiset(s) + multiset{c}
  {
    if |s| == 0 then [c]
    else if s[0].score >= c.score then
      var t := InsertByScore(s[1..], c);
      InsertBehindHead(s, c, t);
      [s[0]] + t
    else
      HeadIsBest(s);
      ConsSorted(c, s);
      [c] + s
  }

  /** `c` goes behind the head `s[0]` when it does not beat it. */
  lemma InsertBehindHead(s: seq<Candidate>, c: Candidate, t: seq<Candidate>)
    requires SortedByScore(s) && |s| > 0 && s[0].score >= c.score
    requires SortedByScore(t) && multiset(t) == multiset(s[1..]) + multiset{c}
    ensures SortedByScore([s[0]] + t)
    ensures multiset([s[0]] + t) == multiset(s) + multiset{c}
  {
    assert s == [s[0]] + s[1..];
    HeadIsBest(s);
    forall y | y in multiset(t) ensures s[0].score >= y.score {
      if y != c {
        assert y in multiset(s[1..]);
        assert y in multiset(s);
      }
    }
    ConsSorted(s[0], t);
  }

  /** Inserting keeps the elements of each score in order, `c` last among its equals. */
  lemma {:induction false} InsertStable(s: seq<Candidate>, c: Candidate, v: real)
    requires SortedByScore(s)
    ensures WithScore(InsertByScore(s, c), v) == WithScore(s, v) + (if c.score == v then [c] else [])
  {
    if |s| == 0 {
    } else if s[0].score >= c.score {
      InsertStable(s[1..], c, v);
      InsertStableBehind(s, c, v);
    } else {
      InsertStableInFront(s, c, v);
    }
  }

  lemma InsertStableBehind(s: seq<Candidate>, c: Candidate, v: real)
    requires SortedByScore(s) && |s| > 0 && s[0].score >= c.score
    requires WithScore(InsertByScore(s[1..], c), v) == WithScore(s[1..], v) + (if c.score == v then [c] else [])
    ensures WithScore(InsertByScore(s, c), v) == WithScore(s, v) + (if c.score == v then [c] else [])
  {
    var t := InsertByScore(s[1..], c);
    InsertAfterHead(s, c);
    WithScoreBehind(s, t, if c.score == v then [c] else [], v);
  }

  /** Replacing the tail of `s` by a list with `extra` more `v`-elements adds `extra` to the `v`-elements of `s`. */
  lemma WithScoreBehind(s: seq<Candidate>, t: seq<Candidate>, extra: seq<Candidate>, v: real)
    requires |s| > 0 && WithScore(t, v) == WithScore(s[1..], v) + extra
    ensures WithScore([s[0]] + t, v) == WithScore(s, v) + extra
  {
    var h, rest := s[0], s[1..];
    assert s == [h] + rest;
    WithScoreCons(h, t, v);
    WithScoreCons(h, rest, v);
    Text.ConcatAssoc(WithScore([h], v), WithScore(rest, v), extra);
  }

  lemma InsertAfterHead(s: seq<Candidate>, c: Candidate)
    requires SortedByScore(s) && |s| > 0 && s[0].score >= c.score
    ensures InsertByScore(s, c) == [s[0]] + InsertByScore(s[1..], c)
  {
  }

  lemma InsertStableInFront(s: seq<Candidate>, c: Candidate, v: real)
    requires SortedByScore(s) && |s| > 0 && s[0].score < c.score
    ensures WithScore(InsertByScore(s, c), v) == WithScore(s, v) + (if c.score == v then [c] else [])
  {
    assert InsertByScore(s, c) == [c] + s;
    WithScoreCons(c, s, v);
    forall i | 0 <= i < |s| ensures s[i].score < c.score {
      if i > 0 { assert s[0].score >= s[i].score; }
    }
    if c.score == v {
      WithScoreNone(s, v);
      assert WithScore([c], v) == [c] + WithScore([], v);
    } else {
      assert WithScore([c], v) == [] + WithScore([], v);
    }
  }

  /**
   * `results.sort((a, b) => b.score - a.score)`: non-increasing by score, a
   * permutation of the input, and (the sort being stable) entries with equal
   * scores keep their map order.
   */
  function SortByScore(s: seq<Candidate>): (r: seq<Candidate>)
    ensures SortedByScore(r)
    ensures multiset(r) == multiset(s)
    ensures forall v :: WithScore(r, v) == WithScore(s, v)
  {
    if |s| == 0 then []
    else
      var init := s[..|s| - 1];
      var c := s[|s| - 1];
      assert s == init + [c];
      var r := InsertByScore(SortByScore(init), c);
      forall v ensures WithScore(r, v) == WithScore(s, v) {
        InsertStable(SortByScore(init), c, v);
        WithScoreAppend(init, [c], v);
      }
      r
  }

  /** `results.slice(0, 5)` of the sorted results: the choices offered in the prompt. */
  function Choices(m: GameMap, key: string): seq<Candidate> {
    var sorted := SortByScore(Candidates(m, key));
    sorted[..Min(MAX_CHOICES, |sorted|)]
  }

  /**
   * The answer typed into the prompt, as an index into `count` choices:
   * `choice && choice !== '0'`, then `parseInt(choice) - 1` must be in range.
   */
  function ChoiceIndex(answer: Option<string>, count: nat): (r: Option<nat>)
    ensures r.Some? ==> && r.value < count
                        && answer.Some? && answer.value != "" && answer.value != "0"
                        && Text.ParseInt(answer.value) == Some(r.value + 1)
    ensures answer.Some? && answer.value != "" && answer.value != "0"
            && Text.ParseInt(answer.value).Some? && 1 <= Text.ParseInt(answer.value).value <= count
            ==> r == Some(Text.ParseInt(answer.value).value - 1)
  {
    if answer.None? || answer.value == "" || answer.value == "0" then None
    else
      var v := Text.ParseInt(answer.value);
      if v.Some? && 0 <= v.value - 1 < count then Some(v.value - 1) else None
  }

  /** What `findSimilarAppId` returns; `None` is `null`. */
  function FuzzyMatch(m: GameMap, key: string, answer: Option<string>): (r: Option<Match>)
    ensures r.Some? ==> Entry(r.value.officialName, r.value.appId) in m
                        && Score(key, r.value.officialName) >= MIN_SIMILARITY
  {
    var choices := Choices(m, key);
    if |choices| == 0 then None
    else
      match ChoiceIndex(answer, |choices|)
      case None => None
      case Some(k) =>
        assert choices[k] in SortByScore(Candidates(m, key));
        assert choices[k] in multiset(Candidates(m, key));
        Some(Match(choices[k].id, choices[k].name))
  }

  /** The scoring loop of `findSimilarAppId`: every entry scored, the qualifying ones kept in order. */
  method CollectCandidates(gameMap: GameMap, key: string) returns (results: seq<Candidate>)
    ensures results == Candidates(gameMap, key)
  {
    results := [];
    var i := 0;
    while i < |gameMap|
      invariant 0 <= i <= |gameMap|
      invariant results == Candidates(gameMap[..i], key)
    {
      var e := gameMap[i];
      var similarity := SimpleSimilarity(key, e.key);
      if similarity >= MIN_SIMILARITY {
        results := results + [Candidate(e.key, e.value, similarity)];
      }
      CandidatesStep(gameMap, key, i);
      i := i + 1;
    }
    assert gameMap[..|gameMap|] == gameMap;
  }

  /** Scoring one more entry appends it to the candidates exactly when it qualifies. */
  lemma CandidatesStep(m: GameMap, key: string, i: nat)
    requires i < |m|
    ensures Candidates(m[..i + 1], key) == Candidates(m[..i], key)
              + (if Score(key, m[i].key) >= MIN_SIMILARITY then [Candidate(m[i].key, m[i].value, Score(key, m[i].key))] else [])
  {
    assert m[..i + 1][..i] == m[..i];
  }

  /** `findSimilarAppId(folderName, normalizedFolderName)` with the prompt's answer as a parameter. */
  method FindSimilarAppId(gameMap: GameMap, normalizedFolderName: string, answer: Option<string>)
    returns (r: Option<Match>)
    ensures r == FuzzyMatch(gameMap, normalizedFolderName, answer)
  {
    var results := CollectCandidates(gameMap, normalizedFolderName);
    results := SortByScore(results);
    if |results| > 0 {
      var choices := results[..Min(MAX_CHOICES, |results|)];
      var index := ChoiceIndex(answer, |choices|);
      if index.Some? {
        return Some(Match(choices[index.value].id, choices[index.value].name));
      }
    }
    return None;
  }

  // ---- properties of the offered choices ----

  /** At most five choices, best first, each a map entry scoring at least 0.8. */
  lemma ChoicesOffered(m: GameMap, key: string)
    ensures |Choices(m, key)| <= MAX_CHOICES
    ensures SortedByScore(Choices(m, key))
    ensures forall c :: c in Choices(m, key) ==>
              c.score >= MIN_SIMILARITY && c.score == Score(key, c.name) && Entry(c.name, c.id) in m
  {
    var sorted := SortByScore(Candidates(m, key));
    forall c | c in Choices(m, key)
      ensures c.score >= MIN_SIMILARITY && c.score == Score(key, c.name) && Entry(c.name, c.id) in m
    {
      assert c in sorted;
      assert c in multiset(Candidates(m, key));
    }
  }

  /** No qualifying entry left out of the prompt scores more than any entry offered. */
  lemma ChoicesAreBest(m: GameMap, key: string)
    ensures forall c, d ::
              (c in multiset(Candidates(m, key)) - multiset(Choices(m, key)) && d in Choices(m, key))
              ==> d.score >= c.score
  {
    var sorted := SortByScore(Candidates(m, key));
    PrefixIsBest(sorted, Min(MAX_CHOICES, |sorted|));
  }

  /** A prefix of a list sorted by score holds the best of it. */
  lemma PrefixIsBest(sorted: seq<Candidate>, k: nat)
    requires SortedByScore(sorted) && k <= |sorted|
    ensures forall c, d :: (c in multiset(sorted) - multiset(sorted[..k]) && d in sorted[..k]) ==> d.score >= c.score
  {
    assert sorted == sorted[..k] + sorted[k..];
    assert multiset(sorted) == multiset(sorted[..k]) + multiset(sorted[k..]);
    forall c, d | c in multiset(sorted) - multiset(sorted[..k]) && d in sorted[..k]
      ensures d.score >= c.score
    {
      assert c in multiset(sorted[k..]);
      var i :| k <= i < |sorted| && sorted[i] == c by {
        assert c in sorted[k..];
      }
      var j :| 0 <= j < k && sorted[j] == d;
    }
  }

  /** Whenever some entry scores at least 0.8 the prompt is shown with at least one choice. */
  lemma ChoicesNonEmpty(m: GameMap, key: string, e: Entry)
    requires e in m && Score(key, e.key) >= MIN_SIMILARITY
    ensures |Choices(m, key)| >= 1
  {
    var cs := Candidates(m, key);
    CandidatesComplete(m, key, e);
    assert Candidate(e.key, e.value, Score(key, e.key)) in cs;
    assert |multiset(SortByScore(cs))| == |multiset(cs)| >= 1;
  }

  /** Answering `k` (written as a number) with `1 <= k <= count` picks index `k - 1`. */
  lemma ChoiceOfNumber(k: nat, count: nat)
    requires 1 <= k <= count
    ensures ChoiceIndex(Some(Text.NatToString(k)), count) == Some(k - 1)
  {
    Text.ParseIntNatToString(k);
    assert Text.NatToString(k) != "0" by {
      if Text.NatToString(k) == "0" {
        Text.ParseIntNatToString(0);
      }
    }
  }

  /** Answering `k` returns choice `k`'s AppID and name. */
  lemma FuzzyMatchPicks(m: GameMap, key: string, k: nat)
    requires 1 <= k <= |Choices(m, key)|
    ensures FuzzyMatch(m, key, Some(Text.NatToString(k)))
         == Some(Match(Choices(m, key)[k - 1].id, Choices(m, key)[k - 1].name))
  {
    ChoiceOfNumber(k, |Choices(m, key)|);
  }

  /** `null` for a cancelled prompt, an empty answer, `'0'`, or no qualifying entry at all. */
  lemma FuzzyMatchNull(m: GameMap, key: string, answer: Option<string>)
    requires answer.None? || answer == Some("") || answer == Some("0") || |Choices(m, key)| == 0
    ensures FuzzyMatch(m, key, answer).None?
  {
  }

  /** An answer that is not a number in `1..count` also gives `null`. */
  lemma FuzzyMatchOutOfRange(m: GameMap, key: string, s: string)
    requires Text.ParseInt(s).None? || Text.ParseInt(s).value < 1
             || Text.ParseInt(s).value > |Choices(m, key)|
    ensures FuzzyMatch(m, key, Some(s)).None?
  {
  }
}
