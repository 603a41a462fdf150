/**
 * The score engine, legacy revision (internal/models/longevity.go), which
 * the page handlers still call. Same pipeline as ScoreEngine with other
 * constants: the age falls back to 30, the weekly decay is linear in age,
 * scores are not clamped, only dates present in all three tables are
 * listed, and each entry is PREPENDED, so the series comes out newest first.
 * The pillar scorers of this file are character-for-character those of
 * calculations.go and are taken from ScoreEngine.
 */
module LegacyEngine {
  import opened Wrappers
  import opened Models
  import Baselines
  import Dates
  import SE = ScoreEngine

  const FallbackAge := 30

  /**
   * UserProfile.GetAge: a birth date that does not parse (the empty one
   * included) gives 30; otherwise the completed years on `now`.
   */
  function GetAge(birthDate: string, now: Dates.Civil): (age: int)
    ensures Dates.ParseDate(birthDate).None? ==> age == FallbackAge
    ensures Dates.ParseDate(birthDate).Some? ==> Dates.CompletedYears(Dates.ParseDate(birthDate).value, now, age)
  {
    match Dates.ParseDate(birthDate)
    case None => FallbackAge
    case Some(b) => Dates.YearsBetween(b, now)
  }

  /** Where utils.GetAge reports an error, this revision silently uses 30; elsewhere they agree. */
  lemma AgeAgainstCurrentRevision(birthDate: string, now: Dates.Civil)
    ensures Dates.GetAge(birthDate, now).Success? ==> GetAge(birthDate, now) == Dates.GetAge(birthDate, now).value
    ensures Dates.GetAge(birthDate, now).Failure? ==> GetAge(birthDate, now) == FallbackAge
    ensures GetAge("", now) == FallbackAge
  {
  }

  /** Weekly decay: age / 200 per year, spread over 52 weeks. */
  function DecayRate(age: int): (rate: real)
    ensures rate * 52.0 * 200.0 == age as real
    ensures age >= 0 ==> rate >= 0.0
  {
    (age as real / 200.0) / 52.0
  }

  /**
   * The two revisions tax equally only at ages 0 and 40; from 41 on the
   * current revision's age-squared rate is the higher one.
   */
  lemma DecayRatesCompared(age: int)
    requires age >= 0
    ensures SE.DecayRate(age) == DecayRate(age) <==> age == 0 || age == 40
    ensures SE.DecayRate(age) > DecayRate(age) <==> age > 40
  {
    assert SE.DecayRate(age) == (age * age) as real / 416000.0;
    assert DecayRate(age) == (age * 40) as real / 416000.0;
    assert age * age - age * 40 == age * (age - 40);
    if age > 40 {
      assert age * (age - 40) > 0;
    } else if 0 < age < 40 {
      assert age * (age - 40) < 0;
    }
  }

  /** CalculateMasterScore, legacy: the running score minus the tax plus the pillars, with no clamp. */
  function CalculateMasterScore(
    current: real, age: int,
    health: HealthMetrics, fitness: FitnessMetrics, cognition: CognitionMetrics,
    rhrBaseline: int, vo2MaxBaseline: real, reactionBaseline: int, whtr: real): (w: SE.WeekScore)
    ensures w.health == SE.HealthPillar(health, rhrBaseline, whtr)
    ensures w.fitness == SE.FitnessPillar(fitness, vo2MaxBaseline)
    ensures w.cognition == SE.CognitionPillar(cognition, reactionBaseline)
    ensures w.tax == current * DecayRate(age)
    ensures w.score - current == (w.health + w.fitness + w.cognition) - w.tax
  {
    var agingTax := current * DecayRate(age);
    var h := SE.HealthPillar(health, rhrBaseline, whtr);
    var f := SE.FitnessPillar(fitness, vo2MaxBaseline);
    var c := SE.CognitionPillar(cognition, reactionBaseline);
    SE.WeekScore(current - agingTax + (h + f + c), h, f, c, agingTax)
  }

  /**
   * Without the clamp a bad enough week drives the score below zero, where
   * the current revision stops at 0.
   */
  lemma NegativeScoreExample()
    ensures var h := HealthMetrics(0, 0, 150.0, 100, 0.0);
            var f := FitnessMetrics(0, 10.0, 0, 0, 0, 0);
            var c := CognitionMetrics(0, 0, 900, 0);
            && CalculateMasterScore(1000.0, 30, h, f, c, 60, 42.0, 240, 1.5).score < 0.0
            && SE.CalculateMasterScore(1000.0, 30, h, f, c, 60, 42.0, 240, 1.5).score == 0.0
  {
  }

  // ---------------------------------------------------------------------
  // The replay

  /** The entry for a complete date, from the running score `current`. */
  function ScoreWeek(current: real, env: SE.Env, d: Date): (e: MasterScore)
    requires SE.ValidEnv(env) && env.tables.Complete(d)
    ensures e.date == d
    ensures e.agingTax == current * DecayRate(env.age)
    ensures e.score - current == (e.healthScore + e.fitnessScore + e.cognitionScore) - e.agingTax
  {
    var h, f, c := env.tables.health[d], env.tables.fitness[d], env.tables.cognition[d];
    var rhrBaseline := if env.rhrBaseline == 0 then h.rhr else env.rhrBaseline;
    var w := CalculateMasterScore(current, env.age, h, f, c, rhrBaseline,
      Baselines.VO2MaxBaseline(env.age, env.profile.sex), Baselines.ReactionTimeBaseline(env.age),
      h.waistCm / env.profile.heightCm);
    MasterScore(d, w.score, w.health, w.fitness, w.cognition, w.tax)
  }

  /**
   * The series and running score after visiting ds from its LAST element to
   * its first, prepending one entry per complete date.
   */
  function Replay(ds: seq<Date>, env: SE.Env): (r: SE.Replayed)
    requires SE.ValidEnv(env)
    ensures |r.scores| == SE.CountComplete(ds, env.tables)
    ensures r.scores == [] ==> r.current == SE.StartingScore
    ensures r.scores != [] ==> r.current == r.scores[0].score
    ensures forall k :: 0 <= k < |r.scores| ==> r.scores[k].date in ds && env.tables.Complete(r.scores[k].date)
    decreases |ds|
  {
    if ds == [] then SE.Replayed([], SE.StartingScore)
    else
      var rest := Replay(ds[1..], env);
      if env.tables.Complete(ds[0]) then
        var e := ScoreWeek(rest.current, env, ds[0]);
        SE.Replayed([e] + rest.scores, e.score)
      else rest
  }

  /** Every date the replay emits after visiting ds[0] is older than ds[0]. */
  lemma LaterEntriesOlder(ds: seq<Date>, env: SE.Env)
    requires SE.ValidEnv(env) && StrictlyDescending(ds) && ds != []
    ensures forall k :: 0 <= k < |Replay(ds[1..], env).scores| ==> Replay(ds[1..], env).scores[k].date < ds[0]
  {
    var rest := Replay(ds[1..], env);
    forall k | 0 <= k < |rest.scores|
      ensures rest.scores[k].date < ds[0]
    {
      var j :| 0 <= j < |ds[1..]| && ds[1..][j] == rest.scores[k].date;
      assert ds[j + 1] == rest.scores[k].date;
    }
  }

  /** Putting a newer entry in front of a newest-first series keeps it newest first. */
  lemma NewestFirstPrepend(e: MasterScore, s: seq<MasterScore>)
    requires NewestFirst(s)
    requires forall k :: 0 <= k < |s| ==> s[k].date < e.date
    ensures NewestFirst([e] + s)
  {
    var t := [e] + s;
    forall i, j | 0 <= i < j < |t|
      ensures t[i].date > t[j].date
    {
      assert t[j] == s[j - 1];
      if i > 0 {
        assert t[i] == s[i - 1];
      }
    }
  }

  /** With the date list in descending order the series comes out newest first. */
  lemma {:induction false} SeriesNewestFirst(ds: seq<Date>, env: SE.Env)
    requires SE.ValidEnv(env) && StrictlyDescending(ds)
    ensures NewestFirst(Replay(ds, env).scores)
    decreases |ds|
  {
    if ds != [] {
      SeriesNewestFirst(ds[1..], env);
      LaterEntriesOlder(ds, env);
      var rest := Replay(ds[1..], env);
      if env.tables.Complete(ds[0]) {
        NewestFirstPrepend(ScoreWeek(rest.current, env, ds[0]), rest.scores);
      }
    }
  }

  /** The running score an entry was scored from: the next (older) entry's score, or 1000 for the oldest. */
  function PrevOf(s: seq<MasterScore>, k: nat): real
    requires k < |s|
  {
    if k == |s| - 1 then SE.StartingScore else s[k + 1].score
  }

  /** Every entry is the week scored from the entry after it (from 1000 for the last, oldest one). */
  predicate LegacyCompounded(s: seq<MasterScore>, env: SE.Env)
    requires SE.ValidEnv(env)
  {
    forall k :: 0 <= k < |s| ==> env.tables.Complete(s[k].date) && s[k] == ScoreWeek(PrevOf(s, k), env, s[k].date)
  }

  /** Prepending the week scored from the series' first entry (or from 1000) keeps the series compounded. */
  lemma CompoundedPrepend(e: MasterScore, s: seq<MasterScore>, env: SE.Env)
    requires SE.ValidEnv(env) && LegacyCompounded(s, env)
    requires env.tables.Complete(e.date)
    requires e == ScoreWeek(if s == [] then SE.StartingScore else s[0].score, env, e.date)
    ensures LegacyCompounded([e] + s, env)
  {
    var t := [e] + s;
    forall k | 0 <= k < |t|
      ensures env.tables.Complete(t[k].date) && t[k] == ScoreWeek(PrevOf(t, k), env, t[k].date)
    {
      if k > 0 {
        assert t[k] == s[k - 1];
        assert PrevOf(t, k) == PrevOf(s, k - 1);
      }
    }
  }

  /**
   * Compounding, legacy: each entry was scored from the running score left
   * by the next (older) entry, and the oldest from 1000.
   */
  lemma {:induction false} LegacyChained(ds: seq<Date>, env: SE.Env)
    requires SE.ValidEnv(env)
    ensures LegacyCompounded(Replay(ds, env).scores, env)
    decreases |ds|
  {
    if ds != [] {
      LegacyChained(ds[1..], env);
      var rest := Replay(ds[1..], env);
      if env.tables.Complete(ds[0]) {
        CompoundedPrepend(ScoreWeek(rest.current, env, ds[0]), rest.scores, env);
      }
    }
  }

  /** A zero resting-heart-rate baseline is replaced by the week's own RHR, so that term adds nothing. */
  lemma ZeroBaselineUsesOwnRhr(current: real, env: SE.Env, d: Date)
    requires SE.ValidEnv(env) && env.tables.Complete(d) && env.rhrBaseline == 0
    ensures var h := env.tables.health[d];
            ScoreWeek(current, env, d).healthScore
            == ((h.sleepScore - 75) * 2) as real + (0.48 - h.waistCm / env.profile.heightCm) * 1000.0 + (h.nutritionScore - 7.0) * 5.0
  {
  }

  /** One step of the countdown: visiting ds[i] before the suffix after it. */
  lemma ReplayStep(ds: seq<Date>, i: int, env: SE.Env)
    requires SE.ValidEnv(env) && 0 <= i < |ds|
    ensures var rest := Replay(ds[i + 1..], env);
            Replay(ds[i..], env)
            == if env.tables.Complete(ds[i]) then
                 var e := ScoreWeek(rest.current, env, ds[i]);
                 SE.Replayed([e] + rest.scores, e.score)
               else rest
  {
    assert ds[i..][1..] == ds[i + 1..];
  }

  predicate AllComplete(ds: seq<Date>, t: Tables) {
    forall i :: 0 <= i < |ds| ==> t.Complete(ds[i])
  }

  /**
   * When every listed date has all three records, as the inner join
   * guarantees, the re-check skips nothing: one entry per date, in the
   * order of the list.
   */
  lemma {:induction false} JoinedDatesAllScored(ds: seq<Date>, env: SE.Env)
    requires SE.ValidEnv(env) && AllComplete(ds, env.tables)
    ensures |Replay(ds, env).scores| == |ds|
    ensures forall k :: 0 <= k < |ds| ==> Replay(ds, env).scores[k].date == ds[k]
    decreases |ds|
  {
    if ds != [] {
      JoinedDatesAllScored(ds[1..], env);
      var rest := Replay(ds[1..], env);
      var e := ScoreWeek(rest.current, env, ds[0]);
      var s := [e] + rest.scores;
      assert Replay(ds, env).scores == s;
      forall k | 0 <= k < |ds|
        ensures s[k].date == ds[k]
      {
        if k > 0 {
          assert s[k] == rest.scores[k - 1];
          assert ds[1..][k - 1] == ds[k];
        }
      }
    }
  }

  // ---------------------------------------------------------------------
  // GetAllWeeklyScores and GetCurrentMasterScore

  /** One scanned row of the join query: a date, or a row that failed to scan. */
  datatype Row = Row(date: Date) | BadRow

  /**
   * The database as this revision reads it: the rows of the inner-join query
   * over the three tables, newest first (None when the query fails), the
   * profile read, the tables and the resting-heart-rate baseline.
   */
  datatype LegacyStore = LegacyStore(rows: Option<seq<Row>>, profile: ProfileRead, tables: Tables, rhrBaseline: int)

  /** The rows the inner join returns list only dates present in all three tables. */
  predicate JoinedRows(store: LegacyStore) {
    store.rows.Some? && forall i :: 0 <= i < |store.rows.value| ==>
      store.rows.value[i].Row? && store.tables.Complete(store.rows.value[i].date)
  }

  predicate HeightPositive(store: LegacyStore) {
    store.profile.Profile? ==> store.profile.profile.heightCm > 0.0
  }

  datatype LegacyError = QueryFailed | ScanFailed | ProfileReadError

  predicate AllScanned(rows: seq<Row>) {
    forall i :: 0 <= i < |rows| ==> rows[i].Row?
  }

  function RowDates(rows: seq<Row>): (ds: seq<Date>)
    requires AllScanned(rows)
    ensures |ds| == |rows| && forall i :: 0 <= i < |rows| ==> ds[i] == rows[i].date
  {
    seq(|rows|, i requires 0 <= i < |rows| => rows[i].date)
  }

  /** The `rows.Next` loop: the dates in row order, or None at the first row that fails to scan. */
  method ScanDates(rows: seq<Row>) returns (r: Option<seq<Date>>)
    ensures r.Some? <==> AllScanned(rows)
    ensures r.Some? ==> r.value == RowDates(rows)
  {
    var dates: seq<Date> := [];
    var n := 0;
    while n < |rows|
      invariant 0 <= n <= |rows|
      invariant AllScanned(rows[..n]) && dates == RowDates(rows[..n])
    {
      if rows[n].BadRow? {
        return None;
      }
      dates := dates + [rows[n].date];
      n := n + 1;
    }
    assert rows[..n] == rows;
    return Some(dates);
  }

  /**
   * The series this revision returns. Query, scan and profile-read errors
   * are errors; no profile is NOT an error but an empty series.
   */
  function WeeklyScores(store: LegacyStore, now: Dates.Civil): (r: Result<seq<MasterScore>, LegacyError>)
    requires HeightPositive(store)
    ensures r.Failure? <==> store.rows.None? || !AllScanned(store.rows.value) || store.profile.ProfileReadFailed?
    ensures store.rows.None? ==> r == Failure(QueryFailed)
    ensures store.rows.Some? && AllScanned(store.rows.value) && store.profile.NoProfile? ==> r == Success([])
    ensures r.Success? && store.profile.Profile? ==> |r.value| == SE.CountComplete(RowDates(store.rows.value), store.tables)
  {
    match store.rows
    case None => Failure(QueryFailed)
    case Some(rows) =>
      if !AllScanned(rows) then Failure(ScanFailed)
      else match store.profile
        case ProfileReadFailed => Failure(ProfileReadError)
        case NoProfile => Success([])
        case Profile(p) =>
          var env := SE.Env(store.tables, p, GetAge(p.birthDate, now), store.rhrBaseline);
          Success(Replay(RowDates(rows), env).scores)
  }

  /**
   * GetAllWeeklyScores, legacy: collects the scanned dates, then walks them
   * from the last index to the first, prepending one entry per complete date.
   */
  method GetAllWeeklyScores(store: LegacyStore, now: Dates.Civil) returns (r: Result<seq<MasterScore>, LegacyError>)
    requires HeightPositive(store)
    ensures r == WeeklyScores(store, now)
  {
    if store.rows.None? {
      return Failure(QueryFailed);
    }
    var scanned := ScanDates(store.rows.value);
    if scanned.None? {
      return Failure(ScanFailed);
    }
    var dates := scanned.value;

    if store.profile.ProfileReadFailed? {
      return Failure(ProfileReadError);
    }
    if store.profile.NoProfile? {
      return Success([]);
    }
    var profile := store.profile.profile;
    var scores := Countdown(dates, SE.Env(store.tables, profile, GetAge(profile.birthDate, now), store.rhrBaseline));
    return Success(scores);
  }

  /**
   * The countdown loop of GetAllWeeklyScores: from the last date to the
   * first, each complete date's entry is put in front of the series.
   */
  method Countdown(dates: seq<Date>, env: SE.Env) returns (scores: seq<MasterScore>)
    requires SE.ValidEnv(env)
    ensures scores == Replay(dates, env).scores
  {
    scores := [];
    var currentScore := SE.StartingScore;
    var i := |dates| - 1;
    while i >= 0
      invariant -1 <= i < |dates|
      invariant Replay(dates[i + 1..], env) == SE.Replayed(scores, currentScore)
    {
      var date := dates[i];
      ReplayStep(dates, i, env);
      if env.tables.Complete(date) {
        var health, fitness, cognition := env.tables.health[date], env.tables.fitness[date], env.tables.cognition[date];
        var rhrBaseline := env.rhrBaseline;
        if rhrBaseline == 0 {
          rhrBaseline := health.rhr;
        }
        var age := env.age;
        var vo2MaxBaseline := Baselines.VO2MaxBaseline(age, env.profile.sex);
        var reactionBaseline := Baselines.ReactionTimeBaseline(age);
        var whtr := health.waistCm / env.profile.heightCm;
        var w := CalculateMasterScore(currentScore, age, health, fitness, cognition,
          rhrBaseline, vo2MaxBaseline, reactionBaseline, whtr);
        var entry := MasterScore(date, w.score, w.health, w.fitness, w.cognition, w.tax);
        assert entry == ScoreWeek(currentScore, env, date);
        scores := [entry] + scores;
        currentScore := w.score;
      }
      i := i - 1;
    }
    assert dates[0..] == dates;
  }

  /**
   * GetCurrentMasterScore, legacy: never an error; the default entry on an
   * error or an empty series, otherwise the series' first entry.
   */
  function GetCurrentMasterScore(store: LegacyStore, now: Dates.Civil, today: Date): (m: MasterScore)
    requires HeightPositive(store)
    ensures WeeklyScores(store, now).Failure? || WeeklyScores(store, now).value == [] ==> m == SE.DefaultScore(today)
    ensures WeeklyScores(store, now).Success? && WeeklyScores(store, now).value != [] ==> m == WeeklyScores(store, now).value[0]
  {
    var r := WeeklyScores(store, now);
    if r.Failure? || |r.value| == 0 then SE.DefaultScore(today) else r.value[0]
  }

  /**
   * Because this series is newest first, its first entry is the LATEST
   * complete week and carries the final running score of the replay.
   */
  lemma CurrentScoreIsLatestWeek(store: LegacyStore, now: Dates.Civil, today: Date, k: nat)
    requires HeightPositive(store) && store.profile.Profile?
    requires WeeklyScores(store, now).Success?
    requires StrictlyDescending(RowDates(store.rows.value))
    requires 0 < k < |WeeklyScores(store, now).value|
    ensures GetCurrentMasterScore(store, now, today).date > WeeklyScores(store, now).value[k].date
  {
    var p := store.profile.profile;
    var env := SE.Env(store.tables, p, GetAge(p.birthDate, now), store.rhrBaseline);
    SeriesNewestFirst(RowDates(store.rows.value), env);
  }

  /** The shown score is the replay's final running score whenever the series is not empty. */
  lemma CurrentScoreIsFinalScore(store: LegacyStore, now: Dates.Civil, today: Date)
    requires HeightPositive(store) && store.profile.Profile?
    requires WeeklyScores(store, now).Success? && WeeklyScores(store, now).value != []
    ensures var p := store.profile.profile;
            GetCurrentMasterScore(store, now, today).score
            == Replay(RowDates(store.rows.value), SE.Env(store.tables, p, GetAge(p.birthDate, now), store.rhrBaseline)).current
  {
  }

  /**
   * Rows from the inner join list only complete dates, so every row is
   * scored, in row order.
   */
  lemma JoinedRowsAllScored(store: LegacyStore, now: Dates.Civil)
    requires HeightPositive(store) && store.profile.Profile? && JoinedRows(store)
    ensures WeeklyScores(store, now).Success?
    ensures |WeeklyScores(store, now).value| == |store.rows.value|
    ensures forall k :: 0 <= k < |store.rows.value| ==> WeeklyScores(store, now).value[k].date == store.rows.value[k].date
  {
    var p := store.profile.profile;
    var env := SE.Env(store.tables, p, GetAge(p.birthDate, now), store.rhrBaseline);
    JoinedDatesAllScored(RowDates(store.rows.value), env);
  }
}
