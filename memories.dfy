/**
 * Memory entries and how retrieval ranks them: the relevance score, a stable
 * descending sort by score, and the top-k slice.
 */
module Memories {
  import opened ActivityTypes

  /**
   * A memory entry. `timestamp` is in milliseconds; `productivityScore` is
   * the weight of `activityType` as a fraction.
   */
  datatype Memory = Memory(
    timestamp: int,
    content: string,
    importance: real,
    emotionalValence: real,
    keyConcepts: seq<string>,
    activityType: ActivityType,
    productivityScore: real)

  /** The relevance score: 0.4·strength + 0.3·recency + 0.3·importance. */
  function MemoryScore(strength: real, recency: real, importance: real): real {
    0.4 * strength + 0.3 * recency + 0.3 * importance
  }

  /** The score is non-decreasing in each of its three terms. */
  lemma MemoryScoreMonotone(s1: real, r1: real, i1: real, s2: real, r2: real, i2: real)
    requires s1 <= s2 && r1 <= r2 && i1 <= i2
    ensures MemoryScore(s1, r1, i1) <= MemoryScore(s2, r2, i2)
  {
  }

  /**
   * With non-negative strength and importance and a recency in (0, 1] the
   * score is positive; with strength and importance in [0, 1] it is at most 1.
   */
  lemma MemoryScoreRange(strength: real, recency: real, importance: real)
    requires strength >= 0.0 && importance >= 0.0 && 0.0 < recency <= 1.0
    ensures 0.0 < MemoryScore(strength, recency, importance)
    ensures strength <= 1.0 && importance <= 1.0 ==> MemoryScore(strength, recency, importance) <= 1.0
  {
  }

  /**
   * The score of `m` at time `now`: strength is looked up by the entry's
   * timestamp in the session's strength map and is 0 when absent; recency is
   * a function of the entry's age in milliseconds.
   */
  function ScoreOf(strength: map<int, real>, now: int, recency: int -> real, m: Memory): real {
    MemoryScore(if m.timestamp in strength then strength[m.timestamp] else 0.0, recency(now - m.timestamp), m.importance)
  }

  /** Scores never increase along `s`, under the given strength map, time and recency curve. */
  predicate SortedDesc(s: seq<Memory>, strength: map<int, real>, now: int, recency: int -> real) {
    forall i, j :: 0 <= i < j < |s| ==> ScoreOf(strength, now, recency, s[j]) <= ScoreOf(strength, now, recency, s[i])
  }

  /** Places `x` before the first entry whose score is not greater, so equal scores keep their order. */
  function Insert(x: Memory, s: seq<Memory>, strength: map<int, real>, now: int, recency: int -> real): seq<Memory> {
    if s == [] || ScoreOf(strength, now, recency, x) >= ScoreOf(strength, now, recency, s[0]) then [x] + s
    else [s[0]] + Insert(x, s[1..], strength, now, recency)
  }

  /** Insert adds exactly `x`. */
  lemma {:induction false} InsertPermutes(x: Memory, s: seq<Memory>, strength: map<int, real>, now: int, recency: int -> real)
    ensures multiset(Insert(x, s, strength, now, recency)) == multiset(s) + multiset{x}
    decreases |s|
  {
    if s != [] && ScoreOf(strength, now, recency, x) < ScoreOf(strength, now, recency, s[0]) {
      InsertPermutes(x, s[1..], strength, now, recency);
      assert s == [s[0]] + s[1..];
    }
  }

  /** Insert keeps a descending sequence descending. */
  lemma {:induction false} InsertSorted(x: Memory, s: seq<Memory>, strength: map<int, real>, now: int, recency: int -> real)
    requires SortedDesc(s, strength, now, recency)
    ensures SortedDesc(Insert(x, s, strength, now, recency), strength, now, recency)
    decreases |s|
  {
    if s != [] && ScoreOf(strength, now, recency, x) < ScoreOf(strength, now, recency, s[0]) {
      var rest := Insert(x, s[1..], strength, now, recency);
      InsertSorted(x, s[1..], strength, now, recency);
      InsertPermutes(x, s[1..], strength, now, recency);
      forall e | e in rest ensures ScoreOf(strength, now, recency, e) <= ScoreOf(strength, now, recency, s[0]) {
        assert e in multiset(rest);
      }
      ConsSorted(s[0], rest, strength, now, recency);
    }
  }

  /** A head scoring at least as high as every entry of a descending tail gives a descending sequence. */
  lemma ConsSorted(h: Memory, rest: seq<Memory>, strength: map<int, real>, now: int, recency: int -> real)
    requires SortedDesc(rest, strength, now, recency)
    requires forall e :: e in rest ==> ScoreOf(strength, now, recency, e) <= ScoreOf(strength, now, recency, h)
    ensures SortedDesc([h] + rest, strength, now, recency)
  {
    var r := [h] + rest;
    forall i, j | 0 <= i < j < |r|
      ensures ScoreOf(strength, now, recency, r[j]) <= ScoreOf(strength, now, recency, r[i])
    {
      assert r[j] == rest[j - 1];
      if i > 0 {
        assert r[i] == rest[i - 1];
      }
    }
  }

  /**
   * `scored.sort((a, b) => b.score - a.score)` followed by dropping the
   * scores: a stable insertion sort of the entries, descending by score.
   */
  function SortByScore(s: seq<Memory>, strength: map<int, real>, now: int, recency: int -> real): seq<Memory> {
    if s == [] then [] else Insert(s[0], SortByScore(s[1..], strength, now, recency), strength, now, recency)
  }

  /** Sorting yields a permutation of its input. */
  lemma {:induction false} SortByScorePermutes(s: seq<Memory>, strength: map<int, real>, now: int, recency: int -> real)
    ensures multiset(SortByScore(s, strength, now, recency)) == multiset(s)
    decreases |s|
  {
    if s != [] {
      var tail := SortByScore(s[1..], strength, now, recency);
      SortByScorePermutes(s[1..], strength, now, recency);
      InsertPermutes(s[0], tail, strength, now, recency);
      assert SortByScore(s, strength, now, recency) == Insert(s[0], tail, strength, now, recency);
      assert s == [s[0]] + s[1..];
      assert multiset(s) == multiset{s[0]} + multiset(s[1..]);
    }
  }

  /** Sorting yields a sequence in non-increasing score order. */
  lemma {:induction false} SortByScoreSorted(s: seq<Memory>, strength: map<int, real>, now: int, recency: int -> real)
    ensures SortedDesc(SortByScore(s, strength, now, recency), strength, now, recency)
    decreases |s|
  {
    if s != [] {
      SortByScoreSorted(s[1..], strength, now, recency);
      InsertSorted(s[0], SortByScore(s[1..], strength, now, recency), strength, now, recency);
    }
  }

  /** The candidates in descending score order, cut to `limit`: `.sort(...).slice(0, limit)`. */
  function Ranked(ms: seq<Memory>, strength: map<int, real>, now: int, recency: int -> real, limit: nat): seq<Memory> {
    var sorted := SortByScore(ms, strength, now, recency);
    if |sorted| <= limit then sorted else sorted[..limit]
  }

  /** Ranked is a prefix of the sorted candidates, of length min(limit, |ms|). */
  lemma RankedPrefix(ms: seq<Memory>, strength: map<int, real>, now: int, recency: int -> real, limit: nat)
    ensures var sorted := SortByScore(ms, strength, now, recency);
      |sorted| == |ms| &&
      |Ranked(ms, strength, now, recency, limit)| == (if |ms| <= limit then |ms| else limit) &&
      sorted == Ranked(ms, strength, now, recency, limit) + sorted[|Ranked(ms, strength, now, recency, limit)|..]
  {
    var sorted := SortByScore(ms, strength, now, recency);
    SortByScorePermutes(ms, strength, now, recency);
    assert |sorted| == |multiset(sorted)| == |multiset(ms)| == |ms|;
  }

  /** Retrieval returns min(limit, |ms|) entries. */
  lemma RankedLength(ms: seq<Memory>, strength: map<int, real>, now: int, recency: int -> real, limit: nat)
    ensures |Ranked(ms, strength, now, recency, limit)| == if |ms| <= limit then |ms| else limit
  {
    RankedPrefix(ms, strength, now, recency, limit);
  }

  /** Retrieval returns entries in non-increasing score order. */
  lemma RankedOrdered(ms: seq<Memory>, strength: map<int, real>, now: int, recency: int -> real, limit: nat)
    ensures SortedDesc(Ranked(ms, strength, now, recency, limit), strength, now, recency)
  {
    SortByScoreSorted(ms, strength, now, recency);
  }

  /** Retrieval returns candidates only, each at most as often as it occurs among them. */
  lemma RankedFromCandidates(ms: seq<Memory>, strength: map<int, real>, now: int, recency: int -> real, limit: nat)
    ensures multiset(Ranked(ms, strength, now, recency, limit)) <= multiset(ms)
  {
    var sorted := SortByScore(ms, strength, now, recency);
    var r := Ranked(ms, strength, now, recency, limit);
    RankedPrefix(ms, strength, now, recency, limit);
    SortByScorePermutes(ms, strength, now, recency);
    assert multiset(sorted) == multiset(r) + multiset(sorted[|r|..]);
  }

  /** No candidate left out of the result scores higher than an entry that was kept. */
  lemma RankedIsTop(ms: seq<Memory>, strength: map<int, real>, now: int, recency: int -> real, limit: nat,
                    x: Memory, i: nat)
    requires x in ms && x !in Ranked(ms, strength, now, recency, limit)
    requires i < |Ranked(ms, strength, now, recency, limit)|
    ensures ScoreOf(strength, now, recency, x) <= ScoreOf(strength, now, recency, Ranked(ms, strength, now, recency, limit)[i])
  {
    var sorted := SortByScore(ms, strength, now, recency);
    var r := Ranked(ms, strength, now, recency, limit);
    RankedPrefix(ms, strength, now, recency, limit);
    SortByScorePermutes(ms, strength, now, recency);
    SortByScoreSorted(ms, strength, now, recency);
    assert x in multiset(sorted);
    var j :| 0 <= j < |sorted| && sorted[j] == x;
    assert r[i] == sorted[i];
    assert forall k :: 0 <= k < |r| ==> sorted[k] == r[k] != x;
  }

  /** RankedIsTop for every left-out candidate and every kept entry at once. */
  lemma RankedIsTopAll(ms: seq<Memory>, strength: map<int, real>, now: int, recency: int -> real, limit: nat)
    ensures var r := Ranked(ms, strength, now, recency, limit);
      forall x, i :: x in ms && x !in r && 0 <= i < |r| ==>
        ScoreOf(strength, now, recency, x) <= ScoreOf(strength, now, recency, r[i])
  {
    var r := Ranked(ms, strength, now, recency, limit);
    forall x, i | x in ms && x !in r && 0 <= i < |r|
      ensures ScoreOf(strength, now, recency, x) <= ScoreOf(strength, now, recency, r[i])
    {
      RankedIsTop(ms, strength, now, recency, limit, x, i);
    }
  }
}
