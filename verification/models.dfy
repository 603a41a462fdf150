/**
 * The records of the health tracker (internal/models/metrics.go and
 * internal/models/notifications.go). Go's float64 fields are `real`;
 * dates are day numbers (see module Dates), which order as the
 * "YYYY-MM-DD" strings the database stores when those are valid dates
 * of years 0-9999.
 */
module Models {

  type Date = int

  /** Health pillar: weekly sleep score (0-100), waist (cm), resting heart rate, nutrition (1-10). */
  datatype HealthMetrics = HealthMetrics(
    date: Date,
    sleepScore: int,
    waistCm: real,
    rhr: int,
    nutritionScore: real)

  /** Fitness pillar. */
  datatype FitnessMetrics = FitnessMetrics(
    date: Date,
    vo2Max: real,
    weeklyWorkouts: int,
    dailySteps: int,
    weeklyMobility: int,
    cardioRecovery: int)

  /** Cognition pillar. */
  datatype CognitionMetrics = CognitionMetrics(
    date: Date,
    dualNBackLevel: int,
    reactionTime: int,
    weeklyMindfulness: int)

  /** The single user's profile; the birth date is kept as the text the user entered. */
  datatype UserProfile = UserProfile(
    birthDate: string,
    sex: string,
    heightCm: real)

  /** One derived, never persisted, entry of the weekly score series. */
  datatype MasterScore = MasterScore(
    date: Date,
    score: real,
    healthScore: real,
    fitnessScore: real,
    cognitionScore: real,
    agingTax: real)

  /** A Web Push subscription; the endpoint URL is its unique key. */
  datatype PushSubscription = PushSubscription(
    endpoint: string,
    p256dh: string,
    auth: string,
    reminderDay: int,     // 0-6, Sunday-Saturday
    reminderTime: string, // "HH:MM" in the subscriber's own timezone
    timezone: string)

  /** What reading the profile can give: a read error, no row, or the profile. */
  datatype ProfileRead = ProfileReadFailed | NoProfile | Profile(profile: UserProfile)

  /**
   * The three metric tables as the score engines see them: a date maps to a
   * record exactly when the by-date query returns a record without error
   * (a per-date read error is indistinguishable from an absent record).
   */
  datatype Tables = Tables(
    health: map<Date, HealthMetrics>,
    fitness: map<Date, FitnessMetrics>,
    cognition: map<Date, CognitionMetrics>)
  {
    /** A week counts only when all three pillars were logged for its date. */
    predicate Complete(d: Date) {
      d in health && d in fitness && d in cognition
    }
  }

  predicate StrictlyDescending(ds: seq<Date>) {
    forall i, j :: 0 <= i < j < |ds| ==> ds[i] > ds[j]
  }

  /** Entries in strictly increasing date order: oldest first. */
  predicate OldestFirst(s: seq<MasterScore>) {
    forall i, j :: 0 <= i < j < |s| ==> s[i].date < s[j].date
  }

  /** Entries in strictly decreasing date order: newest first. */
  predicate NewestFirst(s: seq<MasterScore>) {
    forall i, j :: 0 <= i < j < |s| ==> s[i].date > s[j].date
  }
}
