/**
 * The text heuristics the memory store applies to every fragment before it
 * stores it: key-concept extraction, greedy activity-type inference and the
 * emotional valence score.
 */
module MemoryHeuristics {
  import opened Text
  import opened ActivityTypes

  // ---------------------------------------------------------------------------
  // Sequence helpers

  predicate Distinct<T(==)>(s: seq<T>) {
    forall i, j :: 0 <= i < j < |s| ==> s[i] != s[j]
  }

  /** The position of the first occurrence of `x` in `xs`. */
  function FirstIndex<T(==)>(xs: seq<T>, x: T): (k: nat)
    requires x in xs
    ensures k < |xs| && xs[k] == x
    ensures forall i :: 0 <= i < k ==> xs[i] != x
  {
    if xs[0] == x then 0 else 1 + FirstIndex(xs[1..], x)
  }

  lemma FirstIndexSnoc<T>(a: seq<T>, y: T, x: T)
    requires x in a
    ensures FirstIndex(a + [y], x) == FirstIndex(a, x)
  {
    var k := FirstIndex(a, x);
    assert (a + [y])[k] == x;
  }

  lemma FirstIndexLast<T>(a: seq<T>, x: T)
    requires x !in a
    ensures FirstIndex(a + [x], x) == |a|
  {
    assert (a + [x])[|a|] == x;
  }

  /** Keeps the first occurrence of every element, as `[...new Set(xs)]` does. */
  function Dedup<T(==,!new)>(xs: seq<T>): (r: seq<T>)
    ensures forall x :: x in r <==> x in xs
    ensures |r| <= |xs|
    decreases |xs|
  {
    if xs == [] then []
    else
      var d := Dedup(xs[..|xs| - 1]);
      var x := xs[|xs| - 1];
      assert xs == xs[..|xs| - 1] + [x];
      if x in d then d else d + [x]
  }

  /** Dedup yields distinct elements, ordered by the position of their first occurrence. */
  lemma {:induction false} DedupOrdered<T(!new)>(xs: seq<T>)
    ensures Distinct(Dedup(xs))
    ensures forall i, j :: 0 <= i < j < |Dedup(xs)| ==>
      FirstIndex(xs, Dedup(xs)[i]) < FirstIndex(xs, Dedup(xs)[j])
    decreases |xs|
  {
    if xs != [] {
      var a := xs[..|xs| - 1];
      var x := xs[|xs| - 1];
      assert xs == a + [x];
      DedupOrdered(a);
      var d := Dedup(a);
      forall y | y in d
        ensures FirstIndex(xs, y) == FirstIndex(a, y) < |a|
      {
        FirstIndexSnoc(a, x, y);
      }
      if x !in d {
        FirstIndexLast(a, x);
        var r := d + [x];
        forall i, j | 0 <= i < j < |r|
          ensures FirstIndex(xs, r[i]) < FirstIndex(xs, r[j])
        {
          assert r[i] in d;
          if j < |d| {
            assert r[j] in d;
          }
        }
      }
    }
  }

  // ---------------------------------------------------------------------------
  // Key concepts

  const StopWords: set<string> := {"the", "and", "or", "but", "in", "on", "at", "to"}
  const MaxConcepts: nat := 5

  predicate Qualifies(w: string) {
    |w| > 3 && w !in StopWords
  }

  /** Every stop word is at most three characters long, so the length test alone already excludes them. */
  lemma StopWordsAreShort(w: string)
    requires |w| > 3
    ensures w !in StopWords
  {
  }

  predicate IsLowerWord(w: string) {
    forall j :: 0 <= j < |w| ==> IsLowerWordChar(w[j])
  }

  function FilterQualifying(ws: seq<string>): (r: seq<string>)
    ensures forall k :: 0 <= k < |r| ==> Qualifies(r[k]) && r[k] in ws
    ensures forall w :: w in ws && Qualifies(w) ==> w in r
  {
    if ws == [] then []
    else if Qualifies(ws[0]) then [ws[0]] + FilterQualifying(ws[1..])
    else FilterQualifying(ws[1..])
  }

  /** Filtering keeps the words' order and repeats: it distributes over concatenation. */
  lemma {:induction false} FilterQualifyingAppend(a: seq<string>, b: seq<string>)
    ensures FilterQualifying(a + b) == FilterQualifying(a) + FilterQualifying(b)
    decreases |a|
  {
    if a != [] {
      assert (a + b)[1..] == a[1..] + b;
      FilterQualifyingAppend(a[1..], b);
    } else {
      assert a + b == b;
    }
  }

  /** The lower-cased words of `text` that are long enough and not stop words, in text order, repeats kept. */
  function Candidates(text: string): seq<string> {
    FilterQualifying(Words(ToLower(text)))
  }

  lemma CandidatesAreLowerWords(text: string)
    ensures forall k :: 0 <= k < |Candidates(text)| ==> IsLowerWord(Candidates(text)[k])
  {
    var lower := ToLower(text);
    var ws := Words(lower);
    forall k | 0 <= k < |Candidates(text)|
      ensures IsLowerWord(Candidates(text)[k])
    {
      var w := Candidates(text)[k];
      var m :| 0 <= m < |ws| && ws[m] == w;
      forall j | 0 <= j < |w|
        ensures IsLowerWordChar(w[j])
      {
        assert IsWordChar(ws[m][j]) && ws[m][j] in lower;
        var i :| 0 <= i < |lower| && lower[i] == w[j];
        assert !IsUpper(lower[i]);
      }
    }
  }

  /** The first n distinct elements: `[...new Set(xs)].slice(0, n)`. */
  function TakeDistinct<T(==,!new)>(xs: seq<T>, n: nat): seq<T> {
    var d := Dedup(xs);
    if |d| <= n then d else d[..n]
  }

  /**
   * TakeDistinct yields at most n distinct elements of xs, in order of first
   * occurrence, with no element of xs skipped that occurs before one taken;
   * when fewer than n are taken, every element of xs is taken.
   */
  lemma TakeDistinctSpec<T(!new)>(xs: seq<T>, n: nat)
    ensures |TakeDistinct(xs, n)| <= n && Distinct(TakeDistinct(xs, n))
    ensures forall k :: 0 <= k < |TakeDistinct(xs, n)| ==> TakeDistinct(xs, n)[k] in xs
    ensures forall i, j :: 0 <= i < j < |TakeDistinct(xs, n)| ==>
      FirstIndex(xs, TakeDistinct(xs, n)[i]) < FirstIndex(xs, TakeDistinct(xs, n)[j])
    ensures forall w, i ::
      (w in xs && 0 <= i < |TakeDistinct(xs, n)| && FirstIndex(xs, w) < FirstIndex(xs, TakeDistinct(xs, n)[i]))
      ==> w in TakeDistinct(xs, n)
    ensures |TakeDistinct(xs, n)| < n ==> forall w :: w in xs ==> w in TakeDistinct(xs, n)
  {
    var d := Dedup(xs);
    DedupOrdered(xs);
    var r := TakeDistinct(xs, n);
    assert forall k :: 0 <= k < |r| ==> r[k] == d[k];
    forall w, i | w in xs && 0 <= i < |r| && FirstIndex(xs, w) < FirstIndex(xs, r[i])
      ensures w in r
    {
      var j :| 0 <= j < |d| && d[j] == w;
      assert r[j] == w;
    }
  }

  /** `extractKeyConcepts`: the first five distinct candidate words of the text. */
  function ExtractKeyConcepts(text: string): seq<string> {
    TakeDistinct(Candidates(text), MaxConcepts)
  }

  /**
   * At most five distinct concepts, each a lower-case word of the text longer
   * than three characters and not a stop word; they are the first distinct
   * such words of the text, in the order they first occur.
   */
  lemma ExtractKeyConceptsSpec(text: string)
    ensures var r := ExtractKeyConcepts(text);
      |r| <= MaxConcepts && Distinct(r) &&
      (forall k :: 0 <= k < |r| ==> Qualifies(r[k]) && IsLowerWord(r[k]) && r[k] in Words(ToLower(text))) &&
      (forall i, j :: 0 <= i < j < |r| ==> FirstIndex(Candidates(text), r[i]) < FirstIndex(Candidates(text), r[j])) &&
      (forall w, i ::
        (w in Candidates(text) && 0 <= i < |r| && FirstIndex(Candidates(text), w) < FirstIndex(Candidates(text), r[i]))
        ==> w in r) &&
      (|r| < MaxConcepts ==> forall w :: w in Candidates(text) ==> w in r)
  {
    TakeDistinctSpec(Candidates(text), MaxConcepts);
    CandidatesAreLowerWords(text);
  }

  // ---------------------------------------------------------------------------
  // Activity-type inference

  /** The order in which the source's pattern table lists the types. */
  const TypeOrder: seq<ActivityType> := [Development, Learning, Communication, Entertainment, Work]

  function Position(t: ActivityType): (k: nat)
    ensures k < |TypeOrder| && TypeOrder[k] == t
  {
    match t
    case Development => 0
    case Learning => 1
    case Communication => 2
    case Entertainment => 3
    case Work => 4
  }

  function Patterns(t: ActivityType): seq<string> {
    match t
    case Development => ["code", "programming", "debug", "git", "dev"]
    case Learning => ["learn", "study", "course", "tutorial", "documentation"]
    case Communication => ["email", "chat", "meeting", "slack", "teams"]
    case Entertainment => ["youtube", "social", "game", "video", "browse"]
    case Work => ["project", "task", "deadline", "report", "review"]
  }

  /** The number of concepts that contain at least one of the patterns. */
  function MatchCount(concepts: seq<string>, patterns: seq<string>): (n: nat)
    ensures n <= |concepts|
  {
    if concepts == [] then 0
    else (if ContainsAny(concepts[0], patterns) then 1 else 0) + MatchCount(concepts[1..], patterns)
  }

  function TypeMatches(concepts: seq<string>, t: ActivityType): nat {
    MatchCount(concepts, Patterns(t))
  }

  /** The match count of each type, in TypeOrder. */
  function Counts(concepts: seq<string>): (c: seq<nat>)
    ensures |c| == |TypeOrder|
    ensures forall k :: 0 <= k < |c| ==> c[k] == TypeMatches(concepts, TypeOrder[k])
  {
    [TypeMatches(concepts, Development), TypeMatches(concepts, Learning),
     TypeMatches(concepts, Communication), TypeMatches(concepts, Entertainment),
     TypeMatches(concepts, Work)]
  }

  /** The largest element, 0 for the empty sequence. */
  function MaxOf(xs: seq<nat>): (m: nat)
    ensures forall i :: 0 <= i < |xs| ==> xs[i] <= m
    ensures m == 0 || m in xs
  {
    if xs == [] then 0
    else
      var m := MaxOf(xs[..|xs| - 1]);
      assert xs == xs[..|xs| - 1] + [xs[|xs| - 1]];
      if xs[|xs| - 1] > m then xs[|xs| - 1] else m
  }

  /**
   * The type a scan over the first |c| entries of TypeOrder settles on, given
   * their counts `c`: `work` when every count is 0, else the first type whose
   * count is the maximum.
   */
  function Best(c: seq<nat>): ActivityType
    requires |c| <= |TypeOrder|
  {
    var m := MaxOf(c);
    if m == 0 then Work else TypeOrder[FirstIndex(c, m)]
  }

  /** The reference definition of the inferred type: Best over the counts of all five types. */
  function InferredType(concepts: seq<string>): ActivityType {
    Best(Counts(concepts))
  }

  /** Best picks a maximal count, earliest among equals, and `work` when all counts are 0. */
  lemma BestIsMax(c: seq<nat>)
    requires |c| == |TypeOrder|
    ensures MaxOf(c) == 0 ==> Best(c) == Work
    ensures forall k :: 0 <= k < |c| ==> c[k] <= c[Position(Best(c))]
    ensures c[Position(Best(c))] > 0 ==> forall k :: 0 <= k < Position(Best(c)) ==> c[k] < c[Position(Best(c))]
  {
    var m := MaxOf(c);
    if m > 0 {
      var k := FirstIndex(c, m);
      assert Position(TypeOrder[k]) == k by {
        var p := Position(TypeOrder[k]);
        assert TypeOrder[p] == TypeOrder[k];
      }
    } else {
      assert Position(Work) == 4;
    }
  }

  /**
   * The inferred type has a maximal match count; with no match at all it is
   * `work`; otherwise every type declared before it matches strictly fewer
   * concepts, so ties go to the earliest type.
   */
  lemma InferredTypeIsBest(concepts: seq<string>)
    ensures (forall t :: TypeMatches(concepts, t) == 0) ==> InferredType(concepts) == Work
    ensures forall t :: TypeMatches(concepts, t) <= TypeMatches(concepts, InferredType(concepts))
    ensures TypeMatches(concepts, InferredType(concepts)) > 0 ==>
      forall k :: 0 <= k < Position(InferredType(concepts)) ==>
        TypeMatches(concepts, TypeOrder[k]) < TypeMatches(concepts, InferredType(concepts))
  {
    var c := Counts(concepts);
    BestIsMax(c);
    forall t ensures TypeMatches(concepts, t) == c[Position(t)] {
    }
    if forall t :: TypeMatches(concepts, t) == 0 {
      assert forall k :: 0 <= k < |c| ==> c[k] == TypeMatches(concepts, TypeOrder[k]) == 0;
    }
  }

  lemma MaxOfSnoc(xs: seq<nat>, x: nat)
    ensures MaxOf(xs + [x]) == if x > MaxOf(xs) then x else MaxOf(xs)
  {
    assert (xs + [x])[..|xs|] == xs;
  }

  /** One more step of the scan: a strictly larger count takes over, anything else keeps the current best. */
  lemma BestSnoc(xs: seq<nat>, x: nat)
    requires |xs| < |TypeOrder|
    ensures Best(xs + [x]) == if x > MaxOf(xs) then TypeOrder[|xs|] else Best(xs)
  {
    MaxOfSnoc(xs, x);
    if x > MaxOf(xs) {
      FirstIndexLast(xs, x);
    } else if MaxOf(xs) > 0 {
      FirstIndexSnoc(xs, x, MaxOf(xs));
    }
  }

  /**
   * `inferActivityType`: walks the types in declaration order, replacing the
   * current best only on a strictly greater match count.
   */
  method InferActivityType(concepts: seq<string>) returns (inferredType: ActivityType)
    ensures inferredType == InferredType(concepts)
  {
    ghost var c := Counts(concepts);
    var maxMatches := 0;
    inferredType := Work;
    var i := 0;
    while i < |TypeOrder|
      invariant 0 <= i <= |TypeOrder|
      invariant maxMatches == MaxOf(c[..i])
      invariant inferredType == Best(c[..i])
    {
      var matches := MatchCount(concepts, Patterns(TypeOrder[i]));
      assert c[..i + 1] == c[..i] + [matches];
      MaxOfSnoc(c[..i], matches);
      BestSnoc(c[..i], matches);
      if matches > maxMatches {
        maxMatches := matches;
        inferredType := TypeOrder[i];
      }
      i := i + 1;
    }
    assert c[..i] == c;
  }

  // ---------------------------------------------------------------------------
  // Emotional valence

  const PositiveWords: seq<string> := ["success", "achieve", "productive", "focus", "complete"]
  const NegativeWords: seq<string> := ["distract", "procrastinate", "waste", "delay", "fail"]

  /** How many of the keywords occur in `text`; a keyword counts once however often it occurs. */
  function Hits(text: string, keywords: seq<string>): (n: nat)
    ensures n <= |keywords|
    ensures n == 0 <==> !ContainsAny(text, keywords)
  {
    if keywords == [] then 0
    else
      var rest := Hits(text, keywords[1..]);
      (if Contains(text, keywords[0]) then 1 else 0) + rest
  }

  function PositiveHits(text: string): nat { Hits(ToLower(text), PositiveWords) }
  function NegativeHits(text: string): nat { Hits(ToLower(text), NegativeWords) }

  /**
   * `analyzeEmotionalContent`: (p - n) / (p + n + 1) over the keyword hits of
   * the lower-cased text. It lies strictly between -1 and 1, and its sign is
   * the sign of p - n.
   */
  function AnalyzeEmotionalContent(text: string): (v: real)
    ensures -1.0 < v < 1.0
    ensures v == 0.0 <==> PositiveHits(text) == NegativeHits(text)
    ensures v > 0.0 <==> PositiveHits(text) > NegativeHits(text)
  {
    Valence(PositiveHits(text), NegativeHits(text))
  }

  /** (p - n) / (p + n + 1) for hit counts p and n. */
  function Valence(p: nat, n: nat): (v: real)
    ensures -1.0 < v < 1.0
    ensures v == 0.0 <==> p == n
    ensures v > 0.0 <==> p > n
  {
    var d := (p + n + 1) as real;
    var a := (p as int - n as int) as real;
    assert a / d * d == a;
    a / d
  }

  lemma QuotientBounds(a: real, d: real, lo: real, hi: real)
    requires d > 0.0 && lo * d <= a <= hi * d
    ensures lo <= a / d <= hi
  {
  }

  /** Hit counts of at most five keywords each keep the valence within 5/6 in size. */
  lemma ValenceRange(p: nat, n: nat)
    requires p <= 5 && n <= 5
    ensures -5.0 / 6.0 <= Valence(p, n) <= 5.0 / 6.0
  {
    QuotientBounds((p as int - n as int) as real, (p + n + 1) as real, -5.0 / 6.0, 5.0 / 6.0);
  }

  /** With no keyword in the text the valence is 0; and it never exceeds 5/6 in size. */
  lemma ValenceBounds(text: string)
    ensures !ContainsAny(ToLower(text), PositiveWords) && !ContainsAny(ToLower(text), NegativeWords) ==>
      AnalyzeEmotionalContent(text) == 0.0
    ensures -5.0 / 6.0 <= AnalyzeEmotionalContent(text) <= 5.0 / 6.0
  {
    ValenceRange(PositiveHits(text), NegativeHits(text));
  }
}
