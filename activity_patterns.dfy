/**
 * The productivity pattern analyzer: a one-hour window over the activity
 * records, four metrics folded over the window, an intervention gate, a
 * recommendation rule chain and a duration formatter. The current time and
 * the local hour of day are parameters.
 */
module ActivityPatterns {
  import opened Wrappers
  import opened Text
  import opened ActivityTypes

  /** One hour, the width of the analysis window, in milliseconds. */
  const HourMs: int := 60 * 60 * 1000
  /** A record this long or longer counts as a focused session (25 minutes). */
  const FocusSession: int := 25 * 60 * 1000
  /** Declared as the distraction threshold (5 minutes); no rule of the analyzer reads it. */
  const Distraction: int := 5 * 60 * 1000
  /** An unproductive record this long or longer calls for intervention (15 minutes). */
  const Intervention: int := 15 * 60 * 1000
  /** This many distractions in the window call for intervention. */
  const MaxDistractions: nat := 5
  /** This many focused sessions in the window suggest a break. */
  const MaxFocusedSessions: nat := 4

  datatype Metrics = Metrics(productiveTime: int, unproductiveTime: int, focusedSessions: nat, distractions: nat)

  // ---------------------------------------------------------------------------
  // Filtering and summing, the reference the analyzer's fold is checked against

  /** `Array.prototype.filter`: the elements satisfying `keep`, in order. */
  function Filter(acts: seq<ActivityData>, keep: ActivityData -> bool): (r: seq<ActivityData>)
    ensures |r| <= |acts|
    ensures forall x :: x in r <==> x in acts && keep(x)
  {
    if acts == [] then [] else (if keep(acts[0]) then [acts[0]] else []) + Filter(acts[1..], keep)
  }

  /** Filtering distributes over concatenation, so it keeps the original order. */
  lemma {:induction false} FilterAppend(a: seq<ActivityData>, b: seq<ActivityData>, keep: ActivityData -> bool)
    ensures Filter(a + b, keep) == Filter(a, keep) + Filter(b, keep)
    decreases |a|
  {
    if a != [] {
      FilterAppend(a[1..], b, keep);
      assert (a + b)[0] == a[0] && (a + b)[1..] == a[1..] + b;
      var h := if keep(a[0]) then [a[0]] else [];
      assert Filter(a + b, keep) == h + (Filter(a[1..], keep) + Filter(b, keep));
      assert h + (Filter(a[1..], keep) + Filter(b, keep)) == (h + Filter(a[1..], keep)) + Filter(b, keep);
    } else {
      assert a + b == b;
    }
  }

  /** Filtering one more element at the end keeps it exactly when it satisfies `keep`. */
  lemma FilterSnoc(p: seq<ActivityData>, x: ActivityData, keep: ActivityData -> bool)
    ensures Filter(p + [x], keep) == Filter(p, keep) + (if keep(x) then [x] else [])
  {
    FilterAppend(p, [x], keep);
    assert [x][1..] == [];
  }

  /** The last element kept is the newest element of `acts` that satisfies `keep`. */
  lemma {:induction false} FilterLastIsNewest(acts: seq<ActivityData>, keep: ActivityData -> bool) returns (k: nat)
    requires Filter(acts, keep) != []
    ensures k < |acts| && acts[k] == Filter(acts, keep)[|Filter(acts, keep)| - 1] && keep(acts[k])
    ensures forall j :: k < j < |acts| ==> !keep(acts[j])
    decreases |acts|
  {
    assert acts != [];
    var n := |acts| - 1;
    var prefix := acts[..n];
    assert prefix + [acts[n]] == acts;
    FilterSnoc(prefix, acts[n], keep);
    if keep(acts[n]) {
      k := n;
    } else {
      k := FilterLastIsNewest(prefix, keep);
      assert forall j :: k < j < n ==> acts[j] == prefix[j];
    }
  }

  /** The sum of `timeSpent` over the records. */
  function TotalTime(acts: seq<ActivityData>): int {
    if acts == [] then 0 else acts[0].timeSpent + TotalTime(acts[1..])
  }

  lemma {:induction false} TotalTimeAppend(a: seq<ActivityData>, b: seq<ActivityData>)
    ensures TotalTime(a + b) == TotalTime(a) + TotalTime(b)
    decreases |a|
  {
    if a != [] {
      TotalTimeAppend(a[1..], b);
      assert (a + b)[0] == a[0] && (a + b)[1..] == a[1..] + b;
    } else {
      assert a + b == b;
    }
  }

  /** With no negative durations, a sub-list keeps the time within the total. */
  lemma {:induction false} FilterTimeBounds(acts: seq<ActivityData>, p: ActivityData -> bool, q: ActivityData -> bool)
    requires forall a :: a in acts ==> a.timeSpent >= 0
    requires forall a :: a in acts ==> !(p(a) && q(a))
    ensures 0 <= TotalTime(Filter(acts, p)) && 0 <= TotalTime(Filter(acts, q))
    ensures TotalTime(Filter(acts, p)) + TotalTime(Filter(acts, q)) <= TotalTime(acts)
    decreases |acts|
  {
    if acts != [] {
      FilterTimeBounds(acts[1..], p, q);
      TotalTimeAppend(if p(acts[0]) then [acts[0]] else [], Filter(acts[1..], p));
      TotalTimeAppend(if q(acts[0]) then [acts[0]] else [], Filter(acts[1..], q));
    }
  }

  // ---------------------------------------------------------------------------
  // Classification of one record

  /** `getProductivityScore(activity) >= 0.8`: work, development and learning. */
  predicate IsProductive(a: ActivityData) {
    WeightTenths(a.category.kind) >= 8
  }

  /** `isUnproductiveActivity`: a weight of at most 0.2, which only entertainment has. */
  function IsUnproductiveActivity(a: ActivityData): (b: bool)
    ensures b <==> a.category.kind == Entertainment
  {
    WeightTenths(a.category.kind) <= 2
  }

  predicate IsFocused(a: ActivityData) {
    a.timeSpent >= FocusSession
  }

  /** No record is both productive and unproductive. */
  lemma ProductiveExcludesUnproductive(a: ActivityData)
    ensures !(IsProductive(a) && IsUnproductiveActivity(a))
  {
  }

  // ---------------------------------------------------------------------------
  // The window

  predicate InWindow(now: int, a: ActivityData) {
    a.timestamp > now - HourMs
  }

  /** `getRecentActivities`: the records stamped strictly after one hour before `now`, in order. */
  function RecentActivities(acts: seq<ActivityData>, now: int): seq<ActivityData> {
    Filter(acts, a => InWindow(now, a))
  }

  /** A record is analysed iff it is one of the records and is strictly newer than `now` minus one hour. */
  lemma RecentActivitiesSpec(acts: seq<ActivityData>, now: int)
    ensures |RecentActivities(acts, now)| <= |acts|
    ensures forall a :: a in RecentActivities(acts, now) <==> a in acts && a.timestamp > now - 3600000
  {
  }

  /** The window of a concatenation is the concatenation of the windows: the original order is kept. */
  lemma RecentActivitiesAppend(a: seq<ActivityData>, b: seq<ActivityData>, now: int)
    ensures RecentActivities(a + b, now) == RecentActivities(a, now) + RecentActivities(b, now)
  {
    FilterAppend(a, b, x => InWindow(now, x));
  }

  // ---------------------------------------------------------------------------
  // Metrics

  /** One step of the `reduce` in `calculateProductivityMetrics`. */
  function Accumulate(m: Metrics, a: ActivityData): Metrics {
    Metrics(
      m.productiveTime + (if IsProductive(a) then a.timeSpent else 0),
      m.unproductiveTime + (if IsUnproductiveActivity(a) then a.timeSpent else 0),
      m.focusedSessions + (if IsFocused(a) then 1 else 0),
      m.distractions + (if IsUnproductiveActivity(a) then 1 else 0))
  }

  /** `calculateProductivityMetrics`: a left fold of Accumulate from all zeros. */
  function CalculateMetrics(acts: seq<ActivityData>): Metrics
    decreases |acts|
  {
    if acts == [] then Metrics(0, 0, 0, 0)
    else Accumulate(CalculateMetrics(acts[..|acts| - 1]), acts[|acts| - 1])
  }

  /** Productive time is the total time of the work, development and learning records. */
  lemma {:induction false} ProductiveTimeSpec(acts: seq<ActivityData>)
    ensures CalculateMetrics(acts).productiveTime == TotalTime(Filter(acts, IsProductive))
    decreases |acts|
  {
    if acts != [] {
      var n := |acts| - 1;
      assert acts[..n] + [acts[n]] == acts;
      ProductiveTimeSpec(acts[..n]);
      FilterSnoc(acts[..n], acts[n], IsProductive);
      TotalTimeAppend(Filter(acts[..n], IsProductive), if IsProductive(acts[n]) then [acts[n]] else []);
    }
  }

  /** Unproductive time is the total time of the entertainment records. */
  lemma {:induction false} UnproductiveTimeSpec(acts: seq<ActivityData>)
    ensures CalculateMetrics(acts).unproductiveTime == TotalTime(Filter(acts, IsUnproductiveActivity))
    decreases |acts|
  {
    if acts != [] {
      var n := |acts| - 1;
      assert acts[..n] + [acts[n]] == acts;
      UnproductiveTimeSpec(acts[..n]);
      FilterSnoc(acts[..n], acts[n], IsUnproductiveActivity);
      TotalTimeAppend(Filter(acts[..n], IsUnproductiveActivity), if IsUnproductiveActivity(acts[n]) then [acts[n]] else []);
    }
  }

  /** Focused sessions are the records of at least 25 minutes. */
  lemma {:induction false} FocusedSessionsSpec(acts: seq<ActivityData>)
    ensures CalculateMetrics(acts).focusedSessions == |Filter(acts, IsFocused)|
    decreases |acts|
  {
    if acts != [] {
      var n := |acts| - 1;
      assert acts[..n] + [acts[n]] == acts;
      FocusedSessionsSpec(acts[..n]);
      FilterSnoc(acts[..n], acts[n], IsFocused);
    }
  }

  /** Distractions are the entertainment records. */
  lemma {:induction false} DistractionsSpec(acts: seq<ActivityData>)
    ensures CalculateMetrics(acts).distractions == |Filter(acts, IsUnproductiveActivity)|
    decreases |acts|
  {
    if acts != [] {
      var n := |acts| - 1;
      assert acts[..n] + [acts[n]] == acts;
      DistractionsSpec(acts[..n]);
      FilterSnoc(acts[..n], acts[n], IsUnproductiveActivity);
    }
  }

  /**
   * There are no more distractions or focused sessions than records, and when
   * no duration is negative, productive plus unproductive time is at most the total time.
   */
  lemma MetricsBounds(acts: seq<ActivityData>)
    ensures CalculateMetrics(acts).distractions <= |acts|
    ensures CalculateMetrics(acts).focusedSessions <= |acts|
    ensures (forall a :: a in acts ==> a.timeSpent >= 0) ==>
      0 <= CalculateMetrics(acts).productiveTime && 0 <= CalculateMetrics(acts).unproductiveTime &&
      CalculateMetrics(acts).productiveTime + CalculateMetrics(acts).unproductiveTime <= TotalTime(acts)
  {
    ProductiveTimeSpec(acts);
    UnproductiveTimeSpec(acts);
    FocusedSessionsSpec(acts);
    DistractionsSpec(acts);
    if forall a :: a in acts ==> a.timeSpent >= 0 {
      forall a | a in acts ensures !(IsProductive(a) && IsUnproductiveActivity(a)) {
        ProductiveExcludesUnproductive(a);
      }
      FilterTimeBounds(acts, IsProductive, IsUnproductiveActivity);
    }
  }

  // ---------------------------------------------------------------------------
  // Intervention

  /** `shouldIntervene`: an unproductive current record that is long or comes among many distractions. */
  function ShouldIntervene(current: ActivityData, m: Metrics): bool {
    IsUnproductiveActivity(current) && (current.timeSpent >= Intervention || m.distractions >= MaxDistractions)
  }

  // ---------------------------------------------------------------------------
  // Formatting durations

  /** `formatTimeSpent`: whole minutes (rounded down) as "{h}h {m}m" from one hour on, as "{m}m" below. */
  function FormatTimeSpent(timeSpent: int): string {
    var minutes := timeSpent / 60000;
    var hours := minutes / 60;
    if hours > 0 then NatToString(hours) + "h " + NatToString(minutes % 60) + "m"
    else IntToString(minutes) + "m"
  }

  /** A duration as written: hours with a minute field, or minutes alone. */
  datatype Duration = HoursAndMinutes(hours: nat, minutes: nat) | MinutesOnly(total: int)

  /** The number of minutes a written duration stands for. */
  function DurationMinutes(d: Duration): int {
    match d
    case HoursAndMinutes(h, m) => h * 60 + m
    case MinutesOnly(m) => m
  }

  /** Reads "{h}h {m}m", "{m}m" or "-{m}m" back, keeping which of the forms it was. */
  function ParseTimeSpent(s: string): Option<Duration> {
    if s == [] || s[|s| - 1] != 'm' then None else ParseBody(s[..|s| - 1])
  }

  /** The text before the final "m": hours and minutes when it holds an "h", signed minutes otherwise. */
  function ParseBody(body: string): Option<Duration> {
    match IndexOf(body, 'h')
    case Some(k) => ParseHours(body[..k], body[k + 1..])
    case None => ParseSigned(body)
  }

  function ParseHours(hs: string, rest: string): Option<Duration> {
    if hs != [] && AllDigits(hs) && |rest| >= 2 && rest[0] == ' ' && AllDigits(rest[1..])
    then Some(HoursAndMinutes(DigitsValue(hs), DigitsValue(rest[1..])))
    else None
  }

  function ParseSigned(body: string): Option<Duration> {
    if |body| >= 2 && body[0] == '-' && AllDigits(body[1..]) then Some(MinutesOnly(0 - DigitsValue(body[1..])))
    else if body != [] && AllDigits(body) then Some(MinutesOnly(DigitsValue(body)))
    else None
  }

  lemma DigitsHaveNoH(s: string)
    requires AllDigits(s)
    ensures IndexOf(s, 'h') == None
  {
  }

  /** The first "h" of digits, "h " and digits is the one after the hour digits. */
  lemma IndexOfHours(a: string, b: string)
    requires AllDigits(a)
    ensures IndexOf(a + "h " + b, 'h') == Some(|a|)
  {
    var body := a + "h " + b;
    assert body[|a|] == 'h';
    assert forall i :: 0 <= i < |a| ==> body[i] == a[i];
  }

  lemma ParseBodyHours(a: string, b: string)
    requires a != [] && AllDigits(a) && b != [] && AllDigits(b)
    ensures ParseBody(a + "h " + b) == Some(HoursAndMinutes(DigitsValue(a), DigitsValue(b)))
  {
    var body := a + "h " + b;
    IndexOfHours(a, b);
    assert body[..|a|] == a;
    assert body[|a| + 1..] == " " + b;
    ParseHoursOf(a, b);
  }

  lemma ParseHoursOf(a: string, b: string)
    requires a != [] && AllDigits(a) && b != [] && AllDigits(b)
    ensures ParseHours(a, " " + b) == Some(HoursAndMinutes(DigitsValue(a), DigitsValue(b)))
  {
    assert (" " + b)[1..] == b;
  }

  /** "{h}h {m}m" reads back as h hours and m minutes. */
  lemma ParseHoursMinutes(hours: nat, rest: nat)
    ensures ParseTimeSpent(NatToString(hours) + "h " + NatToString(rest) + "m") == Some(HoursAndMinutes(hours, rest))
  {
    var a := NatToString(hours);
    var b := NatToString(rest);
    NatToStringRoundTrip(hours);
    NatToStringRoundTrip(rest);
    var s := a + "h " + b + "m";
    assert s[..|s| - 1] == a + "h " + b;
    ParseBodyHours(a, b);
  }

  lemma ParseBodySigned(minutes: int)
    ensures ParseBody(IntToString(minutes)) == Some(MinutesOnly(minutes))
  {
    var body := IntToString(minutes);
    if minutes < 0 {
      var d := NatToString(-minutes);
      NatToStringRoundTrip(-minutes);
      assert body == "-" + d;
      assert body[1..] == d;
      DigitsHaveNoH(d);
      assert IndexOf(body, 'h') == None;
    } else {
      NatToStringRoundTrip(minutes);
      DigitsHaveNoH(body);
    }
  }

  /** "{m}m" (or "-{m}m") reads back as m minutes alone. */
  lemma ParseMinutes(minutes: int)
    ensures ParseTimeSpent(IntToString(minutes) + "m") == Some(MinutesOnly(minutes))
  {
    var body := IntToString(minutes);
    var s := body + "m";
    assert s[..|s| - 1] == body;
    ParseBodySigned(minutes);
  }

  /**
   * The formatted duration reads back as the whole number of minutes in it,
   * rounded down; it is written with hours exactly from 60 minutes on, and
   * then as whole hours and a minute field below 60.
   */
  lemma FormatTimeSpentRoundTrip(timeSpent: int)
    ensures var minutes := timeSpent / 60000;
      var d := ParseTimeSpent(FormatTimeSpent(timeSpent));
      d.Some? && DurationMinutes(d.value) == minutes &&
      (d.value.HoursAndMinutes? <==> minutes >= 60) &&
      (d.value.HoursAndMinutes? ==> d.value.hours == minutes / 60 >= 1 && d.value.minutes == minutes % 60 < 60)
  {
    var minutes := timeSpent / 60000;
    var hours := minutes / 60;
    if hours > 0 {
      ParseHoursMinutes(hours, minutes % 60);
    } else {
      ParseMinutes(minutes);
    }
  }

  /** 125 minutes read "2h 5m"; 40 minutes read "40m". */
  lemma FormatTimeSpentExamples()
    ensures FormatTimeSpent(125 * 60000) == "2h 5m"
    ensures FormatTimeSpent(40 * 60000) == "40m"
  {
    assert NatToString(40) == "40";
  }

  // ---------------------------------------------------------------------------
  // Recommendation

  /** `slice().reverse()`. */
  function Reverse(s: seq<ActivityData>): (r: seq<ActivityData>)
    ensures |r| == |s|
  {
    if s == [] then [] else Reverse(s[1..]) + [s[0]]
  }

  /** `Array.prototype.find`: the first element satisfying `p`. */
  function Find(s: seq<ActivityData>, p: ActivityData -> bool): Option<ActivityData> {
    if s == [] then None else if p(s[0]) then Some(s[0]) else Find(s[1..], p)
  }

  lemma {:induction false} FindAppend(a: seq<ActivityData>, b: seq<ActivityData>, p: ActivityData -> bool)
    ensures Find(a + b, p) == if Find(a, p).Some? then Find(a, p) else Find(b, p)
    decreases |a|
  {
    if a != [] {
      FindAppend(a[1..], b, p);
      assert (a + b)[0] == a[0] && (a + b)[1..] == a[1..] + b;
    } else {
      assert a + b == b;
    }
  }

  /** The first match in the reversed list is the last element the filter keeps, if any. */
  lemma {:induction false} FindReverseIsLastKept(s: seq<ActivityData>, p: ActivityData -> bool)
    ensures var f := Filter(s, p);
      Find(Reverse(s), p) == if f == [] then None else Some(f[|f| - 1])
    decreases |s|
  {
    if s != [] {
      FindReverseIsLastKept(s[1..], p);
      FindAppend(Reverse(s[1..]), [s[0]], p);
    }
  }

  /** The newest productive record, searched for from the end. */
  function LastProductive(acts: seq<ActivityData>): Option<ActivityData> {
    Find(Reverse(acts), IsProductive)
  }

  /** The hour-of-day suggestion: before noon, before 15:00, before 18:00, and later. */
  function TimeOfDaySuggestion(hour: int): string {
    if hour < 12 then "planning your day"
    else if hour < 15 then "focused work session"
    else if hour < 18 then "learning something new"
    else "reviewing today's progress"
  }

  /** `getRecommendedActivity`, with the local hour as a parameter. */
  function GetRecommendedActivity(acts: seq<ActivityData>, m: Metrics, hour: int): string {
    if m.unproductiveTime > m.productiveTime && LastProductive(acts).Some? then LastProductive(acts).value.application
    else if m.focusedSessions >= MaxFocusedSessions then "taking a short break"
    else TimeOfDaySuggestion(hour)
  }

  /**
   * The rules in order: after more unproductive than productive time, the
   * application of the newest work, development or learning record if there
   * is one; otherwise a break after four focused sessions; otherwise the
   * suggestion for the hour.
   */
  lemma RecommendationRules(acts: seq<ActivityData>, m: Metrics, hour: int)
    ensures var productive := Filter(acts, IsProductive);
      var r := GetRecommendedActivity(acts, m, hour);
      (m.unproductiveTime > m.productiveTime && productive != [] ==> r == productive[|productive| - 1].application) &&
      (!(m.unproductiveTime > m.productiveTime && productive != []) && m.focusedSessions >= 4 ==>
        r == "taking a short break") &&
      (!(m.unproductiveTime > m.productiveTime && productive != []) && m.focusedSessions < 4 ==>
        r == TimeOfDaySuggestion(hour))
  {
    FindReverseIsLastKept(acts, IsProductive);
  }

  // ---------------------------------------------------------------------------
  // The analysis

  /** `getDefaultInsights`. */
  function DefaultInsights(): ProductivityInsights {
    ProductivityInsights(false, CurrentActivity("No activity", false), "0m", "starting your day")
  }

  /**
   * `analyzeProductivityPatterns`. With records present but none in the last
   * hour the source reads a field of `undefined` and throws, hence the
   * precondition.
   */
  function AnalyzeProductivityPatterns(acts: seq<ActivityData>, now: int, hour: int): (r: ProductivityInsights)
    requires acts == [] || RecentActivities(acts, now) != []
    ensures acts == [] ==> r == DefaultInsights()
  {
    if acts == [] then DefaultInsights()
    else
      var recent := RecentActivities(acts, now);
      var metrics := CalculateMetrics(recent);
      var current := recent[|recent| - 1];
      ProductivityInsights(
        ShouldIntervene(current, metrics),
        CurrentActivity(current.application, IsUnproductiveActivity(current)),
        FormatTimeSpent(current.timeSpent),
        GetRecommendedActivity(recent, metrics, hour))
  }

  /**
   * The insights describe the newest record of the last hour: its
   * application, whether it is entertainment, and its formatted duration.
   * Intervention is required iff that record is entertainment and it lasted
   * at least 15 minutes or the hour holds at least five entertainment records.
   */
  lemma AnalyzeProductivityPatternsSpec(acts: seq<ActivityData>, now: int, hour: int) returns (k: nat)
    requires acts != [] && RecentActivities(acts, now) != []
    ensures k < |acts| && InWindow(now, acts[k]) && forall j :: k < j < |acts| ==> !InWindow(now, acts[j])
    ensures var r := AnalyzeProductivityPatterns(acts, now, hour);
      var current := acts[k];
      r.currentActivity == CurrentActivity(current.application, current.category.kind == Entertainment) &&
      r.timeSpent == FormatTimeSpent(current.timeSpent) &&
      r.recommendedActivity ==
        GetRecommendedActivity(RecentActivities(acts, now), CalculateMetrics(RecentActivities(acts, now)), hour) &&
      (r.requiresIntervention <==>
        current.category.kind == Entertainment &&
        (current.timeSpent >= 15 * 60 * 1000 ||
         |Filter(RecentActivities(acts, now), IsUnproductiveActivity)| >= 5))
  {
    var recent := RecentActivities(acts, now);
    k := FilterLastIsNewest(acts, a => InWindow(now, a));
    assert acts[k] == recent[|recent| - 1];
    AnalysisOfNewest(acts, now, hour);
    DistractionsSpec(recent);
  }

  /** The insights of a non-empty window, field by field, in terms of its last record and its metrics. */
  lemma AnalysisOfNewest(acts: seq<ActivityData>, now: int, hour: int)
    requires acts != [] && RecentActivities(acts, now) != []
    ensures var recent := RecentActivities(acts, now);
      var current := recent[|recent| - 1];
      var r := AnalyzeProductivityPatterns(acts, now, hour);
      r.requiresIntervention == ShouldIntervene(current, CalculateMetrics(recent)) &&
      r.currentActivity == CurrentActivity(current.application, IsUnproductiveActivity(current)) &&
      r.timeSpent == FormatTimeSpent(current.timeSpent) &&
      r.recommendedActivity == GetRecommendedActivity(recent, CalculateMetrics(recent), hour)
  {
  }

  /**
   * The recommendation of the analysis follows the rules over the last hour:
   * after more unproductive than productive time in it, the application of
   * its newest productive record if there is one; otherwise a break after
   * four focused sessions; otherwise the suggestion for the hour.
   */
  lemma AnalysisRecommendation(acts: seq<ActivityData>, now: int, hour: int)
    requires acts != [] && RecentActivities(acts, now) != []
    ensures var recent := RecentActivities(acts, now);
      var m := CalculateMetrics(recent);
      var productive := Filter(recent, IsProductive);
      var r := AnalyzeProductivityPatterns(acts, now, hour).recommendedActivity;
      (m.unproductiveTime > m.productiveTime && productive != [] ==> r == productive[|productive| - 1].application) &&
      (!(m.unproductiveTime > m.productiveTime && productive != []) && m.focusedSessions >= 4 ==>
        r == "taking a short break") &&
      (!(m.unproductiveTime > m.productiveTime && productive != []) && m.focusedSessions < 4 ==>
        r == TimeOfDaySuggestion(hour))
  {
    var recent := RecentActivities(acts, now);
    AnalysisOfNewest(acts, now, hour);
    RecommendationRules(recent, CalculateMetrics(recent), hour);
  }

  /** A lone 16-minute entertainment record from the last hour calls for intervention. */
  lemma LongEntertainmentIntervenes(now: int, hour: int, application: string, url: string)
    ensures var a := ActivityData(now, application, url, 16 * 60 * 1000, Category(Entertainment, 4), 0.2);
      AnalyzeProductivityPatterns([a], now, hour).requiresIntervention
  {
    var a := ActivityData(now, application, url, 16 * 60 * 1000, Category(Entertainment, 4), 0.2);
    assert [a][1..] == [];
    assert RecentActivities([a], now) == [a];
  }

  /**
   * The input the emptiness guard lets through: one record stamped exactly an
   * hour ago is a non-empty list with an empty window, so the as-written
   * analysis has no current record to describe.
   */
  lemma StaleRecordEmptiesWindow(now: int, application: string, url: string)
    ensures var a := ActivityData(now - HourMs, application, url, 0, Category(Work, 1), 0.0);
      [a] != [] && RecentActivities([a], now) == []
  {
    var a := ActivityData(now - HourMs, application, url, 0, Category(Work, 1), 0.0);
    assert [a][1..] == [];
  }

  /**
   * The analysis with the guard on the window instead of on the whole list:
   * defined for every input, the default insights when no record is from the
   * last hour, and the as-written result wherever that one is defined.
   */
  function AnalyzeRecentPatterns(acts: seq<ActivityData>, now: int, hour: int): (r: ProductivityInsights)
    ensures RecentActivities(acts, now) == [] ==> r == DefaultInsights()
    ensures acts == [] || RecentActivities(acts, now) != [] ==> r == AnalyzeProductivityPatterns(acts, now, hour)
  {
    if RecentActivities(acts, now) == [] then DefaultInsights() else AnalyzeProductivityPatterns(acts, now, hour)
  }

  /** With a record from the last hour, the guarded analysis describes the newest such record. */
  lemma AnalyzeRecentPatternsSpec(acts: seq<ActivityData>, now: int, hour: int) returns (k: nat)
    requires RecentActivities(acts, now) != []
    ensures k < |acts| && InWindow(now, acts[k]) && forall j :: k < j < |acts| ==> !InWindow(now, acts[j])
    ensures var r := AnalyzeRecentPatterns(acts, now, hour);
      r.currentActivity == CurrentActivity(acts[k].application, acts[k].category.kind == Entertainment) &&
      r.timeSpent == FormatTimeSpent(acts[k].timeSpent) &&
      r.recommendedActivity ==
        GetRecommendedActivity(RecentActivities(acts, now), CalculateMetrics(RecentActivities(acts, now)), hour)
  {
    k := AnalyzeProductivityPatternsSpec(acts, now, hour);
  }
}
