/**
 * The activity store behind `useActivityMonitor`: the list of activity
 * records and the tracking flag, the updates the tracking tick, `addActivity`,
 * the hourly cleanup and `clearActivities` apply to the list, and the URL
 * classifier that categorises each new record. Timers and React state
 * plumbing are replaced by methods called in sequence.
 */
module ActivityMonitor {
  import opened Wrappers
  import opened Text
  import opened ActivityTypes
  import opened WorkingMemory

  /** The most records kept by `addActivity` and by the hourly cleanup. */
  const MaxStoredActivities: nat := 1000

  const DevelopmentSites: seq<string> := ["github.com", "stackoverflow.com", "localhost"]
  const LearningSites: seq<string> := ["coursera.org", "udemy.com", "pluralsight.com"]
  const CommunicationSites: seq<string> := ["gmail.com", "slack.com", "teams.microsoft.com"]
  const EntertainmentSites: seq<string> := ["youtube.com", "netflix.com", "reddit.com"]

  // ---------------------------------------------------------------------------
  // The URL classifier

  /**
   * `determineCategory`: the first site group whose name occurs in the
   * lower-cased URL decides: development 1, learning 2, communication 3,
   * entertainment 4; no match is work with priority 1.
   */
  function DetermineCategory(url: string): (c: Category)
    ensures 1 <= c.priority <= 4
    ensures c.kind == Development <==> ContainsAny(ToLower(url), DevelopmentSites)
    ensures c.kind == Learning <==>
      !ContainsAny(ToLower(url), DevelopmentSites) && ContainsAny(ToLower(url), LearningSites)
    ensures c.kind == Communication <==>
      !ContainsAny(ToLower(url), DevelopmentSites) && !ContainsAny(ToLower(url), LearningSites) &&
      ContainsAny(ToLower(url), CommunicationSites)
    ensures c.kind == Entertainment <==>
      !ContainsAny(ToLower(url), DevelopmentSites) && !ContainsAny(ToLower(url), LearningSites) &&
      !ContainsAny(ToLower(url), CommunicationSites) && ContainsAny(ToLower(url), EntertainmentSites)
    ensures c.kind == Work <==>
      !ContainsAny(ToLower(url), DevelopmentSites) && !ContainsAny(ToLower(url), LearningSites) &&
      !ContainsAny(ToLower(url), CommunicationSites) && !ContainsAny(ToLower(url), EntertainmentSites)
    ensures c.priority == (match c.kind
      case Development => 1 case Learning => 2 case Communication => 3 case Entertainment => 4 case Work => 1)
  {
    var urlLower := ToLower(url);
    if ContainsAny(urlLower, DevelopmentSites) then Category(Development, 1)
    else if ContainsAny(urlLower, LearningSites) then Category(Learning, 2)
    else if ContainsAny(urlLower, CommunicationSites) then Category(Communication, 3)
    else if ContainsAny(urlLower, EntertainmentSites) then Category(Entertainment, 4)
    else Category(Work, 1)
  }

  /** The classification ignores letter case. */
  lemma DetermineCategoryIgnoresCase(url: string)
    ensures DetermineCategory(ToLower(url)) == DetermineCategory(url)
  {
    ToLowerIdempotent(url);
  }

  /** A URL naming sites of two groups gets the earlier group. */
  lemma EarlierGroupWins(url: string)
    ensures ContainsAny(ToLower(url), DevelopmentSites) ==> DetermineCategory(url) == Category(Development, 1)
    ensures !ContainsAny(ToLower(url), DevelopmentSites) && ContainsAny(ToLower(url), LearningSites) ==>
      DetermineCategory(url) == Category(Learning, 2)
  {
  }

  /** A URL that lower-cases to "github.com", such as "GitHub.com", is development with priority 1. */
  lemma GithubIsDevelopment(url: string)
    requires ToLower(url) == "github.com"
    ensures DetermineCategory(url) == Category(Development, 1)
  {
    var lower := ToLower(url);
    assert Contains(lower, DevelopmentSites[0]) by { assert lower[..|lower|] == lower; }
  }

  /** A URL that lower-cases to "youtube.com", such as "YouTube.com", is entertainment with priority 4. */
  lemma YoutubeIsEntertainment(url: string)
    requires ToLower(url) == "youtube.com"
    ensures DetermineCategory(url) == Category(Entertainment, 4)
  {
    LacksEarlierLetters(ToLower(url));
    NoEarlierGroup(ToLower(url));
    NamesYoutube(ToLower(url));
    OnlyEntertainmentMatches(url);
  }

  lemma LacksEarlierLetters(s: string)
    requires s == "youtube.com" || s == "x.io"
    ensures 'g' !in s && 'l' !in s && 's' !in s && 'r' !in s && 'd' !in s
  {
  }

  lemma NamesYoutube(s: string)
    requires s == "youtube.com"
    ensures ContainsAny(s, EntertainmentSites)
  {
    assert s[..|s|] == s;
    assert Contains(s, EntertainmentSites[0]);
  }

  /** A URL naming an entertainment site and no site of an earlier group is entertainment. */
  lemma OnlyEntertainmentMatches(url: string)
    requires !ContainsAny(ToLower(url), DevelopmentSites)
    requires !ContainsAny(ToLower(url), LearningSites)
    requires !ContainsAny(ToLower(url), CommunicationSites)
    requires ContainsAny(ToLower(url), EntertainmentSites)
    ensures DetermineCategory(url) == Category(Entertainment, 4)
  {
  }

  /**
   * Every development, learning and communication site name holds one of
   * the letters g, l, s, r, d, so a URL lacking all five matches none of them.
   */
  lemma NoEarlierGroup(s: string)
    requires 'g' !in s && 'l' !in s && 's' !in s && 'r' !in s && 'd' !in s
    ensures !ContainsAny(s, DevelopmentSites)
    ensures !ContainsAny(s, LearningSites)
    ensures !ContainsAny(s, CommunicationSites)
  {
    MissingCharNotContained(s, "github.com", 0);
    MissingCharNotContained(s, "stackoverflow.com", 0);
    MissingCharNotContained(s, "localhost", 0);
    assert DevelopmentSites[1..][1..][1..] == [];
    MissingCharNotContained(s, "coursera.org", 3);
    MissingCharNotContained(s, "udemy.com", 1);
    MissingCharNotContained(s, "pluralsight.com", 1);
    assert LearningSites[1..][1..][1..] == [];
    MissingCharNotContained(s, "gmail.com", 0);
    MissingCharNotContained(s, "slack.com", 0);
    MissingCharNotContained(s, "teams.microsoft.com", 4);
    assert CommunicationSites[1..][1..][1..] == [];
  }

  /** A URL naming no known site, such as "X.io", is work with priority 1. */
  lemma UnknownIsWork(url: string)
    requires ToLower(url) == "x.io"
    ensures DetermineCategory(url) == Category(Work, 1)
  {
    LacksEarlierLetters(ToLower(url));
    NoEarlierGroup(ToLower(url));
    MissingCharNotContained(ToLower(url), "youtube.com", 0);
    MissingCharNotContained(ToLower(url), "netflix.com", 0);
    MissingCharNotContained(ToLower(url), "reddit.com", 0);
    assert EntertainmentSites[1..][1..][1..] == [];
  }

  // ---------------------------------------------------------------------------
  // Updates of the record list

  /** The record a tick creates for the current page: no time spent yet, score 0. */
  function NewRecord(now: int, title: string, href: string): ActivityData {
    ActivityData(now, title, href, 0, DetermineCategory(href), 0.0)
  }

  /** The tick updater: backfill the previous record's time up to `now`, then append the new record. */
  function Ticked(current: seq<ActivityData>, now: int, newActivity: ActivityData): seq<ActivityData> {
    if current == [] then [newActivity]
    else
      var previous := current[|current| - 1];
      current[..|current| - 1] + [previous.(timeSpent := now - previous.timestamp)] + [newActivity]
  }

  /**
   * A tick grows the list by one and ends it with the new record; on a
   * non-empty list the former last record now spans up to `now` and every
   * earlier record is unchanged.
   */
  lemma TickedSpec(current: seq<ActivityData>, now: int, newActivity: ActivityData)
    ensures var r := Ticked(current, now, newActivity);
      |r| == |current| + 1 && r[|r| - 1] == newActivity &&
      (current == [] ==> r == [newActivity]) &&
      (current != [] ==>
        r[|current| - 1] == current[|current| - 1].(timeSpent := now - current[|current| - 1].timestamp) &&
        r[|current| - 1].timeSpent == now - current[|current| - 1].timestamp &&
        forall i :: 0 <= i < |current| - 1 ==> r[i] == current[i])
  {
  }

  /** Records ordered with the newest first, as the mount fetch orders its rows. */
  predicate NewestFirst(rows: seq<ActivityData>) {
    forall i, j :: 0 <= i < j < |rows| ==> rows[i].timestamp >= rows[j].timestamp
  }

  /**
   * After a newest-first load, a tick treats the oldest loaded record as the
   * previous one: the record it backfills has the earliest timestamp of all.
   */
  lemma NewestFirstTickBackfillsOldest(rows: seq<ActivityData>, now: int, newActivity: ActivityData)
    requires rows != [] && NewestFirst(rows)
    ensures var r := Ticked(rows, now, newActivity);
      var oldest := rows[|rows| - 1];
      (forall i :: 0 <= i < |rows| ==> oldest.timestamp <= rows[i].timestamp) &&
      r[|rows| - 1] == oldest.(timeSpent := now - oldest.timestamp)
  {
    TickedSpec(rows, now, newActivity);
  }

  /** A tick is not capped: on a full list of 1000 records it leaves 1001. */
  lemma TickIgnoresCap(current: seq<ActivityData>, now: int, newActivity: ActivityData)
    requires |current| == MaxStoredActivities
    ensures |Ticked(current, now, newActivity)| == MaxStoredActivities + 1
  {
    TickedSpec(current, now, newActivity);
  }

  /** The hourly cleanup: `slice(-1000)` when there are more than 1000 records. */
  function Trimmed(current: seq<ActivityData>): seq<ActivityData> {
    if |current| > MaxStoredActivities then current[|current| - MaxStoredActivities..] else current
  }

  /** Cleanup keeps the last 1000 records, leaves a shorter list as it is, and a second run changes nothing. */
  lemma TrimmedSpec(current: seq<ActivityData>)
    ensures Trimmed(current) == LastN(current, MaxStoredActivities)
    ensures |current| <= MaxStoredActivities ==> Trimmed(current) == current
    ensures |Trimmed(current)| <= MaxStoredActivities
    ensures Trimmed(Trimmed(current)) == Trimmed(current)
  {
  }

  /** The updater of `addActivity`: append, then `slice(-1000)`. */
  function Appended(current: seq<ActivityData>, activity: ActivityData): seq<ActivityData> {
    var newActivities := current + [activity];
    if |newActivities| <= MaxStoredActivities then newActivities
    else newActivities[|newActivities| - MaxStoredActivities..]
  }

  /**
   * The added record is last, the length is min(old + 1, 1000), and the
   * records before it are the newest of the old ones, in order.
   */
  lemma AppendedSpec(current: seq<ActivityData>, activity: ActivityData)
    ensures var r := Appended(current, activity);
      |r| == (if |current| + 1 <= MaxStoredActivities then |current| + 1 else MaxStoredActivities) &&
      r[|r| - 1] == activity &&
      r[..|r| - 1] == LastN(current, MaxStoredActivities - 1)
  {
    var r := Appended(current, activity);
    if |current| + 1 > MaxStoredActivities {
      assert r[..|r| - 1] == current[|current| - (MaxStoredActivities - 1)..];
    } else {
      assert r[..|r| - 1] == current;
    }
  }

  // ---------------------------------------------------------------------------
  // The store

  class ActivityStore {
    var activities: seq<ActivityData>
    var isTracking: bool
    /** Whether the tracking interval is set (`trackingInterval.current`). */
    var intervalSet: bool

    /** The tracking flag always agrees with whether the interval is set. */
    ghost predicate Valid()
      reads this
    {
      isTracking == intervalSet
    }

    /** The initial list is what local storage holds, or empty. */
    constructor (stored: Option<seq<ActivityData>>)
      ensures Valid()
      ensures activities == (if stored.Some? then stored.value else [])
      ensures !isTracking && !intervalSet
    {
      activities := if stored.Some? then stored.value else [];
      isTracking := false;
      intervalSet := false;
    }

    /** The fetch on mount: on success the fetched rows replace the list; on error nothing changes. */
    method SyncFromRemote(fetched: Option<seq<ActivityData>>)
      modifies this
      ensures activities == (if fetched.Some? then fetched.value else old(activities))
      ensures isTracking == old(isTracking) && intervalSet == old(intervalSet)
    {
      if fetched.Some? {
        activities := fetched.value;
      }
    }

    /** `startTracking`: does nothing when the interval is already set. */
    method StartTracking()
      requires Valid()
      modifies this
      ensures Valid()
      ensures old(intervalSet) ==> isTracking == old(isTracking) && intervalSet == old(intervalSet)
      ensures isTracking && intervalSet
      ensures activities == old(activities)
    {
      if intervalSet {
        return;
      }
      isTracking := true;
      intervalSet := true;
    }

    /** One run of the tracking interval for the page titled `title` at `href`. */
    method Tick(now: int, title: string, href: string)
      modifies this
      ensures activities == Ticked(old(activities), now, NewRecord(now, title, href))
      ensures isTracking == old(isTracking) && intervalSet == old(intervalSet)
    {
      var newActivity := NewRecord(now, title, href);
      if activities == [] {
        activities := [newActivity];
      } else {
        var previous := activities[|activities| - 1];
        var updatedPrevious := previous.(timeSpent := now - previous.timestamp);
        activities := activities[..|activities| - 1] + [updatedPrevious] + [newActivity];
      }
    }

    /** `stopTracking`: clears the interval and the tracking flag. */
    method StopTracking()
      modifies this
      ensures Valid()
      ensures !isTracking && !intervalSet
      ensures activities == old(activities)
    {
      if intervalSet {
        intervalSet := false;
      }
      isTracking := false;
    }

    /** The hourly cleanup. */
    method Cleanup()
      modifies this
      ensures activities == Trimmed(old(activities))
      ensures isTracking == old(isTracking) && intervalSet == old(intervalSet)
    {
      if |activities| > MaxStoredActivities {
        activities := activities[|activities| - MaxStoredActivities..];
      }
    }

    /** `addActivity`, local state only. */
    method AddActivity(activity: ActivityData)
      modifies this
      ensures activities == Appended(old(activities), activity)
      ensures isTracking == old(isTracking) && intervalSet == old(intervalSet)
    {
      var newActivities := activities + [activity];
      if |newActivities| > MaxStoredActivities {
        newActivities := newActivities[|newActivities| - MaxStoredActivities..];
      }
      activities := newActivities;
    }

    /** `clearActivities`, local state only. */
    method ClearActivities()
      modifies this
      ensures activities == []
      ensures isTracking == old(isTracking) && intervalSet == old(intervalSet)
    {
      activities := [];
    }

    method GetActivities() returns (r: seq<ActivityData>)
      ensures r == activities
    {
      r := activities;
    }

    /** `getCurrentActivity`: the newest record, or none for an empty list. */
    method GetCurrentActivity() returns (r: Option<ActivityData>)
      ensures activities == [] <==> r.None?
      ensures r.Some? ==> r.value == activities[|activities| - 1]
    {
      if activities == [] {
        r := None;
      } else {
        r := Some(activities[|activities| - 1]);
      }
    }
  }
}
