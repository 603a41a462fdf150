/**
 * The score compounding engine, current revision
 * (internal/services/calculations.go): three linear pillar scorers, one
 * week's compounding step with an age-squared aging tax and a clamp at 0,
 * and the replay of the whole history behind a data-completeness gate.
 * The database is a Store value and "now" a parameter.
 */
module ScoreEngine {
  import opened Wrappers
  import opened Models
  import Baselines
  import Dates

  // ---------------------------------------------------------------------
  // Pillar scorers. Integer differences are taken before conversion to
  // real, and the divisions by 150 and 2 are real divisions.

  /** Health: sleep against 75, waist-to-height against 0.48, resting heart rate against its baseline, nutrition against 7. */
  function HealthPillar(m: HealthMetrics, rhrBaseline: int, whtr: real): (r: real)
    ensures m.sleepScore >= 75 && whtr <= 0.48 && m.rhr <= rhrBaseline && m.nutritionScore >= 7.0 ==> r >= 0.0
    ensures m.sleepScore <= 75 && whtr >= 0.48 && m.rhr >= rhrBaseline && m.nutritionScore <= 7.0 ==> r <= 0.0
  {
    ((m.sleepScore - 75) * 2) as real + (0.48 - whtr) * 1000.0
      + ((rhrBaseline - m.rhr) * 5) as real + (m.nutritionScore - 7.0) * 5.0
  }

  /** The cardio-recovery offset this revision uses (beats per minute in 60 s). */
  const CardioRecoveryBaseline := 20

  /** Fitness: VO2max against its baseline, workouts against 3, steps against 8000, mobility against 3, recovery against 20. */
  function FitnessPillar(m: FitnessMetrics, vo2MaxBaseline: real): (r: real)
    ensures (&& m.vo2Max >= vo2MaxBaseline && m.weeklyWorkouts >= 3 && m.dailySteps >= 8000
             && m.weeklyMobility >= 3 && m.cardioRecovery >= CardioRecoveryBaseline) ==> r >= 0.0
    ensures (&& m.vo2Max <= vo2MaxBaseline && m.weeklyWorkouts <= 3 && m.dailySteps <= 8000
             && m.weeklyMobility <= 3 && m.cardioRecovery <= CardioRecoveryBaseline) ==> r <= 0.0
  {
    (m.vo2Max - vo2MaxBaseline) * 20.0 + (m.weeklyWorkouts - 3) as real * 20.0
      + (m.dailySteps - 8000) as real / 150.0 + (m.weeklyMobility - 3) as real * 10.0
      + (m.cardioRecovery - CardioRecoveryBaseline) as real * 3.0
  }

  /** Cognition: n-back level against 2, reaction time against its baseline (lower is better), mindfulness against 3. */
  function CognitionPillar(m: CognitionMetrics, reactionBaseline: int): (r: real)
    ensures m.dualNBackLevel >= 2 && m.reactionTime <= reactionBaseline && m.weeklyMindfulness >= 3 ==> r >= 0.0
    ensures m.dualNBackLevel <= 2 && m.reactionTime >= reactionBaseline && m.weeklyMindfulness <= 3 ==> r <= 0.0
  {
    (m.dualNBackLevel - 2) as real * 20.0 + (reactionBaseline - m.reactionTime) as real / 2.0
      + (m.weeklyMindfulness - 3) as real * 5.0
  }

  /**
   * A week exactly at the reference values (sleep 75, waist-to-height 0.48,
   * resting heart rate at its baseline, nutrition 7; VO2max at its baseline,
   * 3 workouts, 8000 steps, 3 mobility sessions, recovery 20; n-back 2,
   * reaction time at its baseline, 3 mindfulness sessions) scores 0 in every pillar.
   */
  lemma PillarsNeutralAtReference(d: Date, waist: real, rhr: int, vo2: real, reaction: int)
    ensures HealthPillar(HealthMetrics(d, 75, waist, rhr, 7.0), rhr, 0.48) == 0.0
    ensures FitnessPillar(FitnessMetrics(d, vo2, 3, 8000, 3, 20), vo2) == 0.0
    ensures CognitionPillar(CognitionMetrics(d, 2, reaction, 3), reaction) == 0.0
  {
  }

  /**
   * The exact weight of each metric: the change of the pillar when one
   * metric moves by one unit and nothing else moves. One extra daily step
   * is worth exactly 1/150 and one millisecond of reaction exactly 1/2:
   * neither division truncates.
   */
  lemma PillarWeights(h: HealthMetrics, rhrBaseline: int, whtr: real, f: FitnessMetrics, vo2b: real, c: CognitionMetrics, rtb: int)
    ensures HealthPillar(h.(sleepScore := h.sleepScore + 1), rhrBaseline, whtr) - HealthPillar(h, rhrBaseline, whtr) == 2.0
    ensures HealthPillar(h, rhrBaseline, whtr + 0.001) - HealthPillar(h, rhrBaseline, whtr) == -1.0
    ensures HealthPillar(h.(rhr := h.rhr + 1), rhrBaseline, whtr) - HealthPillar(h, rhrBaseline, whtr) == -5.0
    ensures HealthPillar(h.(nutritionScore := h.nutritionScore + 1.0), rhrBaseline, whtr) - HealthPillar(h, rhrBaseline, whtr) == 5.0
    ensures FitnessPillar(f.(vo2Max := f.vo2Max + 1.0), vo2b) - FitnessPillar(f, vo2b) == 20.0
    ensures FitnessPillar(f.(weeklyWorkouts := f.weeklyWorkouts + 1), vo2b) - FitnessPillar(f, vo2b) == 20.0
    ensures FitnessPillar(f.(dailySteps := f.dailySteps + 1), vo2b) - FitnessPillar(f, vo2b) == 1.0 / 150.0
    ensures FitnessPillar(f.(weeklyMobility := f.weeklyMobility + 1), vo2b) - FitnessPillar(f, vo2b) == 10.0
    ensures FitnessPillar(f.(cardioRecovery := f.cardioRecovery + 1), vo2b) - FitnessPillar(f, vo2b) == 3.0
    ensures CognitionPillar(c.(dualNBackLevel := c.dualNBackLevel + 1), rtb) - CognitionPillar(c, rtb) == 20.0
    ensures CognitionPillar(c.(reactionTime := c.reactionTime + 1), rtb) - CognitionPillar(c, rtb) == -0.5
    ensures CognitionPillar(c.(weeklyMindfulness := c.weeklyMindfulness + 1), rtb) - CognitionPillar(c, rtb) == 5.0
  {
  }

  // ---------------------------------------------------------------------
  // One week

  const StartingScore: real := 1000.0

  /** Weekly aging-decay rate: age squared over 8000, spread over 52 weeks. */
  function DecayRate(age: int): (rate: real)
    ensures rate * 52.0 * 8000.0 == (age * age) as real
    ensures rate >= 0.0
  {
    ((age * age) as real / 8000.0) / 52.0
  }

  /** No tax at age 0; the tax never exceeds the running score until |age| passes 644. */
  lemma DecayRateBounds(age: int)
    ensures DecayRate(age) == 0.0 <==> age == 0
    ensures DecayRate(age) <= 1.0 <==> age * age <= 416000
  {
  }

  datatype WeekScore = WeekScore(score: real, health: real, fitness: real, cognition: real, tax: real)

  /**
   * CalculateMasterScore. The profile is passed in the source only so that
   * the age can be recomputed from it; `age` is that value.
   */
  function CalculateMasterScore(
    current: real, age: int,
    health: HealthMetrics, fitness: FitnessMetrics, cognition: CognitionMetrics,
    rhrBaseline: int, vo2MaxBaseline: real, reactionBaseline: int, whtr: real): (w: WeekScore)
    ensures w.health == HealthPillar(health, rhrBaseline, whtr)
    ensures w.fitness == FitnessPillar(fitness, vo2MaxBaseline)
    ensures w.cognition == CognitionPillar(cognition, reactionBaseline)
    ensures w.tax == current * DecayRate(age)
    ensures current >= 0.0 ==> w.tax >= 0.0
    ensures w.score >= 0.0
    ensures w.score >= current - w.tax + (w.health + w.fitness + w.cognition)
    ensures w.score == 0.0 || w.score == current - w.tax + (w.health + w.fitness + w.cognition)
  {
    var tax := current * DecayRate(age);
    var h := HealthPillar(health, rhrBaseline, whtr);
    var f := FitnessPillar(fitness, vo2MaxBaseline);
    var c := CognitionPillar(cognition, reactionBaseline);
    var finalScore := (current - tax) + (h + f + c);
    WeekScore(if finalScore > 0.0 then finalScore else 0.0, h, f, c, tax)
  }

  /**
   * A worked week with this revision's constants
   * (recovery offset 20): age 35, score 1000, health 455/9, fitness 385/3,
   * cognition 25, tax 1225/416.
   */
  lemma ExampleWeek()
    ensures var w := CalculateMasterScore(1000.0, 35,
              HealthMetrics(0, 80, 80.0, 60, 8.0), FitnessMetrics(0, 42.0, 4, 10000, 3, 25),
              CognitionMetrics(0, 3, 240, 4), 60, 38.0, 240, 80.0 / 180.0);
            && w.health == 455.0 / 9.0 && w.fitness == 385.0 / 3.0 && w.cognition == 25.0
            && w.tax == 1225.0 / 416.0
            && w.score == 1000.0 - 1225.0 / 416.0 + 455.0 / 9.0 + 385.0 / 3.0 + 25.0
  {
  }

  // ---------------------------------------------------------------------
  // The replay of the whole history

  /** Everything a replay reads besides the date list; age and RHR baseline are evaluated against "now". */
  datatype Env = Env(tables: Tables, profile: UserProfile, age: int, rhrBaseline: int)

  predicate ValidEnv(env: Env) {
    env.profile.heightCm > 0.0
  }

  /** The entry emitted for a complete date, starting from the running score `current`. */
  function ScoreWeek(current: real, env: Env, d: Date): (e: MasterScore)
    requires ValidEnv(env) && env.tables.Complete(d)
    ensures e.date == d && e.score >= 0.0
    ensures e.agingTax == current * DecayRate(env.age)
  {
    var h, f, c := env.tables.health[d], env.tables.fitness[d], env.tables.cognition[d];
    var rhrBaseline := if env.rhrBaseline == 0 then h.rhr else env.rhrBaseline;
    var w := CalculateMasterScore(current, env.age, h, f, c, rhrBaseline,
      Baselines.VO2MaxBaseline(env.age, env.profile.sex), Baselines.ReactionTimeBaseline(env.age),
      h.waistCm / env.profile.heightCm);
    MasterScore(d, w.score, w.health, w.fitness, w.cognition, w.tax)
  }

  /** A zero resting-heart-rate baseline is replaced by the week's own RHR, so that term adds nothing. */
  lemma ZeroBaselineUsesOwnRhr(current: real, env: Env, d: Date)
    requires ValidEnv(env) && env.tables.Complete(d) && env.rhrBaseline == 0
    ensures var h := env.tables.health[d];
            ScoreWeek(current, env, d).healthScore
            == ((h.sleepScore - 75) * 2) as real + (0.48 - h.waistCm / env.profile.heightCm) * 1000.0 + (h.nutritionScore - 7.0) * 5.0
  {
  }

  /** Number of dates of ds with all three records. */
  function CountComplete(ds: seq<Date>, t: Tables): (n: nat)
    ensures n <= |ds|
  {
    if ds == [] then 0 else CountComplete(ds[1..], t) + (if t.Complete(ds[0]) then 1 else 0)
  }

  datatype Replayed = Replayed(scores: seq<MasterScore>, current: real)

  /**
   * The series and running score after visiting ds from its LAST element to
   * its first, appending one entry per complete date and skipping the others.
   */
  function Replay(ds: seq<Date>, env: Env): (r: Replayed)
    requires ValidEnv(env)
    ensures r.current >= 0.0
    ensures |r.scores| == CountComplete(ds, env.tables)
    ensures r.scores == [] ==> r.current == StartingScore
    ensures r.scores != [] ==> r.current == r.scores[|r.scores| - 1].score
    ensures forall k :: 0 <= k < |r.scores| ==>
              r.scores[k].score >= 0.0 && r.scores[k].date in ds && env.tables.Complete(r.scores[k].date)
    decreases |ds|
  {
    if ds == [] then Replayed([], StartingScore)
    else
      var rest := Replay(ds[1..], env);
      if env.tables.Complete(ds[0]) then
        var e := ScoreWeek(rest.current, env, ds[0]);
        Replayed(rest.scores + [e], e.score)
      else rest
  }

  /** A date missing any record changes nothing: no entry, no tax, same running score. */
  lemma IncompleteDateSkipped(d: Date, ds: seq<Date>, env: Env)
    requires ValidEnv(env) && !env.tables.Complete(d)
    ensures Replay([d] + ds, env) == Replay(ds, env)
  {
    assert ([d] + ds)[1..] == ds;
  }

  /** The running score before the k-th emitted entry. */
  function StartOf(scores: seq<MasterScore>, k: nat): real
    requires k <= |scores|
  {
    if k == 0 then StartingScore else scores[k - 1].score
  }

  /** Every entry is the week scored from the entry before it (from 1000 for the first). */
  predicate Compounded(s: seq<MasterScore>, env: Env)
    requires ValidEnv(env)
  {
    forall k :: 0 <= k < |s| ==> env.tables.Complete(s[k].date) && s[k] == ScoreWeek(StartOf(s, k), env, s[k].date)
  }

  /** Appending the week scored from the series' last entry keeps the series compounded. */
  lemma CompoundedAppend(s: seq<MasterScore>, e: MasterScore, env: Env)
    requires ValidEnv(env) && Compounded(s, env)
    requires env.tables.Complete(e.date) && e == ScoreWeek(StartOf(s, |s|), env, e.date)
    ensures Compounded(s + [e], env)
  {
    var t := s + [e];
    forall k | 0 <= k < |t|
      ensures env.tables.Complete(t[k].date) && t[k] == ScoreWeek(StartOf(t, k), env, t[k].date)
    {
      if k < |s| {
        assert t[k] == s[k];
        assert StartOf(t, k) == StartOf(s, k);
      } else {
        assert StartOf(t, k) == StartOf(s, |s|);
      }
    }
  }

  /** Compounding: the series chains week to week, each entry scored from the one before. */
  lemma {:induction false} Chained(ds: seq<Date>, env: Env)
    requires ValidEnv(env)
    ensures Compounded(Replay(ds, env).scores, env)
    decreases |ds|
  {
    if ds != [] {
      Chained(ds[1..], env);
      var rest := Replay(ds[1..], env);
      if env.tables.Complete(ds[0]) {
        assert StartOf(rest.scores, |rest.scores|) == rest.current;
        CompoundedAppend(rest.scores, ScoreWeek(rest.current, env, ds[0]), env);
      }
    }
  }

  /** Every date the replay emits after visiting ds[0] is older than ds[0]. */
  lemma EarlierEntriesOlder(ds: seq<Date>, env: Env)
    requires ValidEnv(env) && StrictlyDescending(ds) && ds != []
    ensures forall k :: 0 <= k < |Replay(ds[1..], env).scores| ==> Replay(ds[1..], env).scores[k].date < ds[0]
  {
    var rest := Replay(ds[1..], env);
    forall k | 0 <= k < |rest.scores|
      ensures rest.scores[k].date < ds[0]
    {
      var j :| 0 <= j < |ds[1..]| && ds[1..][j] == rest.scores[k].date;
      assert ds[j + 1] == rest.scores[k].date;
    }
  }

  /** With the date list in descending order the series comes out oldest first. */
  lemma {:induction false} SeriesOldestFirst(ds: seq<Date>, env: Env)
    requires ValidEnv(env) && StrictlyDescending(ds)
    ensures OldestFirst(Replay(ds, env).scores)
    decreases |ds|
  {
    if ds != [] {
      SeriesOldestFirst(ds[1..], env);
      EarlierEntriesOlder(ds, env);
      var rest := Replay(ds[1..], env);
      assert OldestFirst(rest.scores);
      if env.tables.Complete(ds[0]) {
        var e := ScoreWeek(rest.current, env, ds[0]);
        var s := rest.scores + [e];
        assert Replay(ds, env).scores == s;
        forall i, j | 0 <= i < j < |s|
          ensures s[i].date < s[j].date
        {
          assert s[i] == rest.scores[i];
          if j < |rest.scores| {
            assert s[j] == rest.scores[j];
          }
        }
      }
    }
  }

  lemma {:induction false} CompleteDateCounted(ds: seq<Date>, t: Tables, d: Date)
    requires d in ds && t.Complete(d)
    ensures CountComplete(ds, t) > 0
    decreases |ds|
  {
    if ds[0] != d {
      CompleteDateCounted(ds[1..], t, d);
    }
  }

  /** With a descending date list, the first entry is the oldest complete date. */
  lemma {:induction false} FirstEntryIsOldest(ds: seq<Date>, env: Env, d: Date)
    requires ValidEnv(env) && StrictlyDescending(ds)
    requires d in ds && env.tables.Complete(d)
    ensures Replay(ds, env).scores != []
    ensures Replay(ds, env).scores[0].date <= d
    decreases |ds|
  {
    CompleteDateCounted(ds, env.tables, d);
    var rest := Replay(ds[1..], env);
    if d == ds[0] {
      if rest.scores != [] {
        var j :| 0 <= j < |ds[1..]| && ds[1..][j] == rest.scores[0].date;
        assert ds[j + 1] == rest.scores[0].date;
      }
    } else {
      FirstEntryIsOldest(ds[1..], env, d);
    }
  }

  // ---------------------------------------------------------------------
  // GetAllWeeklyScores and GetCurrentMasterScore

  /**
   * The database as the engine reads it: the distinct dates with any record
   * (None when the query fails), the profile read, the three tables and the
   * trailing resting-heart-rate average (0 when unavailable).
   */
  datatype Store = Store(dates: Option<seq<Date>>, profile: ProfileRead, tables: Tables, rhrBaseline: int)

  /** The height divides the waist; Go would produce an infinity for 0, which is not modelled. */
  predicate HeightPositive(store: Store) {
    store.profile.Profile? ==> store.profile.profile.heightCm > 0.0
  }

  datatype EngineError = DatesReadFailed | ProfileRequired | InvalidProfile(cause: Dates.AgeError)

  /**
   * The series GetAllWeeklyScores returns. A failed date read or a missing or
   * unreadable profile is an error, never a partial series; so is a birth
   * date that does not give an age, as soon as there is any date to visit,
   * complete or not.
   */
  function WeeklyScores(store: Store, now: Dates.Civil): (r: Result<seq<MasterScore>, EngineError>)
    requires HeightPositive(store)
    ensures r.Failure? <==>
              || store.dates.None?
              || !store.profile.Profile?
              || (store.dates.value != [] && Dates.GetAge(store.profile.profile.birthDate, now).Failure?)
    ensures store.dates.None? ==> r == Failure(DatesReadFailed)
    ensures store.dates.Some? && !store.profile.Profile? ==> r == Failure(ProfileRequired)
    ensures r.Success? ==> forall k :: 0 <= k < |r.value| ==> r.value[k].score >= 0.0
    ensures r.Success? ==> |r.value| == CountComplete(store.dates.value, store.tables)
  {
    match store.dates
    case None => Failure(DatesReadFailed)
    case Some(dates) =>
      if !store.profile.Profile? then Failure(ProfileRequired)
      else if dates == [] then Success([])
      else
        var p := store.profile.profile;
        match Dates.GetAge(p.birthDate, now)
        case Failure(e) => Failure(InvalidProfile(e))
        case Success(age) => Success(Replay(dates, Env(store.tables, p, age, store.rhrBaseline)).scores)
  }

  /**
   * GetAllWeeklyScores: walks the dates from the last index to the first,
   * carrying the running score and appending one entry per complete date.
   */
  method GetAllWeeklyScores(store: Store, now: Dates.Civil) returns (r: Result<seq<MasterScore>, EngineError>)
    requires HeightPositive(store)
    ensures r == WeeklyScores(store, now)
  {
    if store.dates.None? {
      return Failure(DatesReadFailed);
    }
    var allDates := store.dates.value;
    if !store.profile.Profile? {
      return Failure(ProfileRequired);
    }
    var profile := store.profile.profile;

    var scores: seq<MasterScore> := [];
    var currentScore := StartingScore;
    var i := |allDates| - 1;
    while i >= 0
      invariant -1 <= i < |allDates|
      invariant currentScore >= 0.0
      invariant i == |allDates| - 1 ==> scores == [] && currentScore == StartingScore
      invariant i < |allDates| - 1 ==>
                  var age := Dates.GetAge(profile.birthDate, now);
                  && age.Success?
                  && Replay(allDates[i + 1..], Env(store.tables, profile, age.value, store.rhrBaseline))
                     == Replayed(scores, currentScore)
    {
      var date := allDates[i];
      var age := Dates.GetAge(profile.birthDate, now);
      if age.Failure? {
        return Failure(InvalidProfile(age.error));
      }
      ghost var env := Env(store.tables, profile, age.value, store.rhrBaseline);
      assert allDates[i..][1..] == allDates[i + 1..];

      if !store.tables.Complete(date) {
        i := i - 1;
        continue;
      }
      var h, f, c := store.tables.health[date], store.tables.fitness[date], store.tables.cognition[date];

      var rhrBaseline := store.rhrBaseline;
      if rhrBaseline == 0 {
        rhrBaseline := h.rhr;
      }
      var whtr := h.waistCm / profile.heightCm;

      var w := CalculateMasterScore(currentScore, age.value, h, f, c, rhrBaseline,
        Baselines.VO2MaxBaseline(age.value, profile.sex), Baselines.ReactionTimeBaseline(age.value), whtr);
      scores := scores + [MasterScore(date, w.score, w.health, w.fitness, w.cognition, w.tax)];
      currentScore := w.score;
      i := i - 1;
    }
    assert allDates[0..] == allDates;
    return Success(scores);
  }

  /** The entry shown when there is nothing to show: today's date and the starting score. */
  function DefaultScore(today: Date): MasterScore {
    MasterScore(today, StartingScore, 0.0, 0.0, 0.0, 0.0)
  }

  /**
   * GetCurrentMasterScore: never an error. On any error or an empty series
   * it is the default entry; otherwise the series' FIRST entry.
   */
  function GetCurrentMasterScore(store: Store, now: Dates.Civil, today: Date): (m: MasterScore)
    requires HeightPositive(store)
    ensures m.score >= 0.0
    ensures WeeklyScores(store, now).Failure? || WeeklyScores(store, now).value == [] ==> m == DefaultScore(today)
    ensures WeeklyScores(store, now).Success? && WeeklyScores(store, now).value != [] ==> m == WeeklyScores(store, now).value[0]
  {
    var r := WeeklyScores(store, now);
    if r.Failure? || |r.value| == 0 then DefaultScore(today) else r.value[0]
  }

  /**
   * Because the series is oldest first, the "current" score is that of the
   * OLDEST complete week: its date is at or before every complete date.
   */
  lemma CurrentScoreIsOldestWeek(store: Store, now: Dates.Civil, today: Date, d: Date)
    requires HeightPositive(store)
    requires WeeklyScores(store, now).Success?
    requires StrictlyDescending(store.dates.value)
    requires d in store.dates.value && store.tables.Complete(d)
    ensures GetCurrentMasterScore(store, now, today).date <= d
    ensures store.tables.Complete(GetCurrentMasterScore(store, now, today).date)
  {
    var p := store.profile.profile;
    var env := Env(store.tables, p, Dates.GetAge(p.birthDate, now).value, store.rhrBaseline);
    FirstEntryIsOldest(store.dates.value, env, d);
  }
}
