/**
 * Character and string helpers used by the heuristics, the URL classifier and
 * the duration formatter: ASCII lower-casing, substring search, the word
 * tokens that a split on the regular expression `\W+` produces, and decimal
 * rendering of integers together with its inverse.
 */
module Text {
  import opened Wrappers

  predicate IsUpper(c: char) { 'A' <= c <= 'Z' }

  /** Characters matched by `\w` in a JavaScript regular expression without the `u` flag. */
  predicate IsWordChar(c: char) {
    'a' <= c <= 'z' || 'A' <= c <= 'Z' || '0' <= c <= '9' || c == '_'
  }

  /** A `\w` character that is not an upper-case letter. */
  predicate IsLowerWordChar(c: char) {
    'a' <= c <= 'z' || '0' <= c <= '9' || c == '_'
  }

  function LowerChar(c: char): (d: char)
    ensures !IsUpper(d)
    ensures !IsUpper(c) ==> d == c
    ensures IsWordChar(c) <==> IsWordChar(d)
  {
    if IsUpper(c) then (c as int + 32) as char else c
  }

  /** `String.prototype.toLowerCase`, restricted to the ASCII letters. */
  function ToLower(s: string): (r: string)
    ensures |r| == |s|
    ensures forall i :: 0 <= i < |s| ==> r[i] == LowerChar(s[i])
  {
    if s == [] then [] else [LowerChar(s[0])] + ToLower(s[1..])
  }

  lemma ToLowerIdempotent(s: string)
    ensures ToLower(ToLower(s)) == ToLower(s)
  {
  }

  predicate IsPrefix(p: string, s: string) {
    |p| <= |s| && s[..|p|] == p
  }

  /** `s.includes(sub)`. */
  predicate Contains(s: string, sub: string)
    decreases |s|
  {
    |sub| <= |s| && (s[..|sub|] == sub || Contains(s[1..], sub))
  }

  /** A string holding a character that `s` lacks does not occur in `s`. */
  lemma {:induction false} MissingCharNotContained(s: string, sub: string, i: nat)
    requires i < |sub| && sub[i] !in s
    ensures !Contains(s, sub)
    decreases |s|
  {
    if |sub| <= |s| {
      assert s[..|sub|][i] == s[i];
      MissingCharNotContained(s[1..], sub, i);
    }
  }

  /** `subs.some(sub => s.includes(sub))`. */
  predicate ContainsAny(s: string, subs: seq<string>)
    decreases |subs|
  {
    subs != [] && (Contains(s, subs[0]) || ContainsAny(s, subs[1..]))
  }

  // ---------------------------------------------------------------------------
  // Word tokens

  /** The longest prefix of `s` made of `\w` characters. */
  function LeadingWord(s: string): (w: string)
    ensures IsPrefix(w, s)
    ensures forall i :: 0 <= i < |w| ==> IsWordChar(w[i])
    ensures |w| < |s| ==> !IsWordChar(s[|w|])
    ensures s != [] && IsWordChar(s[0]) ==> w != []
  {
    if s == [] || !IsWordChar(s[0]) then [] else [s[0]] + LeadingWord(s[1..])
  }

  /**
   * The maximal runs of `\w` characters of `s`, left to right. This is
   * `s.split(/\W+/)` without the empty fields that split yields at a leading
   * or trailing separator (and for the empty string).
   */
  function Words(s: string): (r: seq<string>)
    ensures forall k :: 0 <= k < |r| ==> r[k] != []
    ensures forall k, j :: 0 <= k < |r| && 0 <= j < |r[k]| ==> IsWordChar(r[k][j]) && r[k][j] in s
    decreases |s|
  {
    if s == [] then []
    else if !IsWordChar(s[0]) then Words(s[1..])
    else
      var w := LeadingWord(s);
      assert forall j :: 0 <= j < |w| ==> w[j] == s[j];
      [w] + Words(s[|w|..])
  }

  /** Position i of `s` begins a maximal run of `\w` characters. */
  predicate WordStart(s: string, i: int) {
    0 <= i < |s| && IsWordChar(s[i]) && (i == 0 || !IsWordChar(s[i - 1]))
  }

  /**
   * `pos` lists, in increasing order, every position of `s` where a maximal
   * `\w` run begins, and `ws[k]` is the run that begins at `pos[k]`.
   */
  ghost predicate RunsAt(s: string, ws: seq<string>, pos: seq<nat>) {
    |pos| == |ws| &&
    (forall k :: 0 <= k < |pos| ==> WordStart(s, pos[k]) && ws[k] == LeadingWord(s[pos[k]..])) &&
    Increasing(pos) &&
    (forall i :: WordStart(s, i) ==> i in pos)
  }

  predicate Increasing(pos: seq<nat>) {
    forall k, l :: 0 <= k < l < |pos| ==> pos[k] < pos[l]
  }

  lemma ShiftedIncreasing(p: seq<nat>, d: nat)
    requires Increasing(p)
    ensures Increasing(Shifted(p, d))
    ensures d > 0 ==> Increasing([0] + Shifted(p, d))
  {
    var q := Shifted(p, d);
    if d > 0 {
      forall k, l | 0 <= k < l < |q| + 1
        ensures ([0] + q)[k] < ([0] + q)[l]
      {
        assert ([0] + q)[l] == q[l - 1];
        if k > 0 {
          assert ([0] + q)[k] == q[k - 1];
        }
      }
    }
  }

  /** A run that begins in the rest after the first word begins at the same place in `s`. */
  lemma RunAfterWord(s: string, n: nat, t: string, j: int, m: int)
    requires s != [] && n == |LeadingWord(s)| && t == s[n..] && WordStart(t, j) && m == j + n
    ensures j > 0 && WordStart(s, m) && LeadingWord(s[m..]) == LeadingWord(t[j..])
  {
    assert t[0] == s[n];
    assert s[j + n] == t[j];
    assert s[j + n - 1] == t[j - 1];
    assert s[j + n..] == t[j..];
  }

  /** Words(s) is exactly the sequence of maximal `\w` runs of `s`, left to right. */
  lemma {:induction false} WordsAt(s: string) returns (pos: seq<nat>)
    ensures RunsAt(s, Words(s), pos)
    decreases |s|
  {
    if s == [] {
      pos := [];
    } else if !IsWordChar(s[0]) {
      var p := WordsAt(s[1..]);
      pos := Shifted(p, 1);
      RunsAfterSeparator(s, p);
    } else {
      var w := LeadingWord(s);
      var p := WordsAt(s[|w|..]);
      pos := [0] + Shifted(p, |w|);
      RunsAfterWord(s, p);
    }
  }

  lemma RunsAfterSeparator(s: string, p: seq<nat>)
    requires s != [] && !IsWordChar(s[0])
    requires RunsAt(s[1..], Words(s[1..]), p)
    ensures RunsAt(s, Words(s), Shifted(p, 1))
  {
    var t := s[1..];
    var pos := Shifted(p, 1);
    assert Words(s) == Words(t);
    forall k | 0 <= k < |pos|
      ensures WordStart(s, pos[k]) && Words(s)[k] == LeadingWord(s[pos[k]..])
    {
      assert WordStart(t, p[k]);
      assert s[pos[k]..] == t[p[k]..];
    }
    forall i | WordStart(s, i)
      ensures i in pos
    {
      assert WordStart(t, i - 1);
      var k :| 0 <= k < |p| && p[k] == i - 1;
      assert pos[k] == i;
    }
  }

  lemma RunsAfterWord(s: string, p: seq<nat>)
    requires s != [] && IsWordChar(s[0])
    requires RunsAt(s[|LeadingWord(s)|..], Words(s[|LeadingWord(s)|..]), p)
    ensures RunsAt(s, Words(s), [0] + Shifted(p, |LeadingWord(s)|))
  {
    var w := LeadingWord(s);
    var pos := [0] + Shifted(p, |w|);
    assert Words(s) == [w] + Words(s[|w|..]);
    assert s[0..] == s;
    ShiftedIncreasing(p, |w|);
    LaterRunsAfterWord(s, p);
    AllRunsAfterWord(s, p);
  }

  lemma LaterRunsAfterWord(s: string, p: seq<nat>)
    requires s != [] && IsWordChar(s[0])
    requires RunsAt(s[|LeadingWord(s)|..], Words(s[|LeadingWord(s)|..]), p)
    ensures forall k :: 0 < k < |p| + 1 ==>
      WordStart(s, ([0] + Shifted(p, |LeadingWord(s)|))[k]) &&
      Words(s)[k] == LeadingWord(s[([0] + Shifted(p, |LeadingWord(s)|))[k]..])
  {
    var w := LeadingWord(s);
    var t := s[|w|..];
    var pos := [0] + Shifted(p, |w|);
    var ws := Words(s);
    assert ws == [w] + Words(t);
    forall k | 0 < k < |pos|
      ensures WordStart(s, pos[k]) && ws[k] == LeadingWord(s[pos[k]..])
    {
      var j := p[k - 1];
      var m := j + |w|;
      assert pos[k] == m;
      assert WordStart(t, j) && Words(t)[k - 1] == LeadingWord(t[j..]);
      RunAfterWord(s, |w|, t, j, m);
      assert ws[k] == Words(t)[k - 1];
    }
  }

  lemma AllRunsAfterWord(s: string, p: seq<nat>)
    requires s != [] && IsWordChar(s[0])
    requires RunsAt(s[|LeadingWord(s)|..], Words(s[|LeadingWord(s)|..]), p)
    ensures forall i :: WordStart(s, i) ==> i in [0] + Shifted(p, |LeadingWord(s)|)
  {
    var w := LeadingWord(s);
    var t := s[|w|..];
    var pos := [0] + Shifted(p, |w|);
    forall i | WordStart(s, i) && i != 0
      ensures i in pos
    {
      var j := i - |w|;
      StartAfterWord(s, |w|, t, i, j);
      var k :| 0 <= k < |p| && p[k] == j;
      assert pos[k + 1] == i;
    }
  }

  /** A run that begins after position 0 of `s` begins past the first word, in the rest `t`. */
  lemma StartAfterWord(s: string, n: nat, t: string, i: int, j: int)
    requires n == |LeadingWord(s)| && t == s[n..] && WordStart(s, i) && i != 0 && j == i - n
    ensures WordStart(t, j)
  {
    assert s[i] == t[j];
    assert j > 0;
    assert s[i - 1] == t[j - 1];
  }

  /** Every position of `p` moved right by d. */
  function Shifted(p: seq<nat>, d: nat): (q: seq<nat>)
    ensures |q| == |p| && forall k :: 0 <= k < |p| ==> q[k] == p[k] + d
  {
    seq(|p|, k requires 0 <= k < |p| => p[k] + d)
  }

  // ---------------------------------------------------------------------------
  // Decimal rendering, as in a template literal `${n}`

  predicate IsDigit(c: char) { '0' <= c <= '9' }

  predicate AllDigits(s: string) {
    forall i :: 0 <= i < |s| ==> IsDigit(s[i])
  }

  function DigitChar(d: nat): (c: char)
    requires d < 10
    ensures IsDigit(c) && c as int - '0' as int == d
  {
    ('0' as int + d) as char
  }

  function NatToString(n: nat): (s: string)
    decreases n
  {
    if n < 10 then [DigitChar(n)] else NatToString(n / 10) + [DigitChar(n % 10)]
  }

  function IntToString(i: int): string {
    if i < 0 then "-" + NatToString(-i) else NatToString(i)
  }

  /** Reads a string of decimal digits back as a number. */
  function DigitsValue(s: string): nat
    requires AllDigits(s)
  {
    if s == [] then 0 else DigitsValue(s[..|s| - 1]) * 10 + (s[|s| - 1] as int - '0' as int)
  }

  /** Decimal rendering is non-empty, all digits, and reads back as the number it renders. */
  lemma {:induction false} NatToStringRoundTrip(n: nat)
    ensures NatToString(n) != [] && AllDigits(NatToString(n))
    ensures DigitsValue(NatToString(n)) == n
    decreases n
  {
    if n >= 10 {
      NatToStringRoundTrip(n / 10);
      var s := NatToString(n);
      assert s[..|s| - 1] == NatToString(n / 10);
    }
  }

  /** The first position of `c` in `s`. */
  function IndexOf(s: string, c: char): (r: Option<nat>)
    ensures r.Some? ==> r.value < |s| && s[r.value] == c && forall i :: 0 <= i < r.value ==> s[i] != c
    ensures r.None? ==> forall i :: 0 <= i < |s| ==> s[i] != c
  {
    if s == [] then None
    else if s[0] == c then Some(0)
    else match IndexOf(s[1..], c)
      case None => None
      case Some(k) => Some(k + 1)
  }
}
