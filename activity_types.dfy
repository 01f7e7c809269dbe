/**
 * The records shared by the activity store, the pattern analyzer and the
 * memory store: activity categories, activity records, the insights the
 * analyzer derives, and the productivity weight of each category.
 */
module ActivityTypes {

  /** The five category types, in the order the source declares its pattern table. */
  datatype ActivityType = Development | Learning | Communication | Entertainment | Work

  datatype Category = Category(kind: ActivityType, priority: int)

  /**
   * One tracked activity. Times are milliseconds since the epoch; `timeSpent`
   * is a duration in milliseconds (0 until the next record backfills it).
   */
  datatype ActivityData = ActivityData(
    timestamp: int,
    application: string,
    url: string,
    timeSpent: int,
    category: Category,
    productivityScore: real)

  datatype CurrentActivity = CurrentActivity(name: string, isUnproductive: bool)

  datatype ProductivityInsights = ProductivityInsights(
    requiresIntervention: bool,
    currentActivity: CurrentActivity,
    timeSpent: string,
    recommendedActivity: string)

  /**
   * The productivity weight of a category type in tenths:
   * work 1.0, development 1.0, learning 0.8, communication 0.6, entertainment 0.2.
   * In tenths the comparisons `>= 0.8` and `<= 0.2` used by the analyzer are exact.
   */
  function WeightTenths(t: ActivityType): (w: nat)
    ensures 2 <= w <= 10
    ensures w <= 2 <==> t == Entertainment
    ensures w >= 8 <==> t == Work || t == Development || t == Learning
  {
    match t
    case Work => 10
    case Development => 10
    case Learning => 8
    case Communication => 6
    case Entertainment => 2
  }
}
