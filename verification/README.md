# Health Balance: verified model of the longevity-score core

Health Balance is a personal dashboard. Once a week the user logs three pillars of metrics: health, fitness and cognition. Each complete week is folded into a running longevity score. The score starts at 1000 and loses an age-dependent "aging tax" every week. The weekly pillar points are added back, and a Web Push reminder is sent when the current week is still incomplete. This project models that core in Dafny and proves properties of it:

- `baselines.dfy` (module `Baselines`) models the age- and sex-banded VO2max baselines and the age-banded reaction-time baselines.
- `dates.dfy` (module `Dates`) covers several pieces of date handling:
  - Dates are day numbers, with day 0 = 1970-01-01, a Thursday. Go's `Weekday()` becomes `(n + 4) % 7`, with Sunday = 0.
  - It models the previous-or-same Sunday that keys each week (`getPreviousSunday` of the seeding script), and the current week's Sunday, Monday and range label.
  - It models `time.Parse("2006-01-02")` as a strict parser with a round trip against formatting.
  - It models `GetAge`, which counts completed years against an explicit "now".
- `score_engine.dfy` (module `ScoreEngine`) models the current score engine:
  - the three pillar scorers;
  - `CalculateMasterScore`, with its age-squared tax and its clamp at 0;
  - the `GetAllWeeklyScores` countdown loop, as a method proved equal to a recursive replay;
  - the `GetCurrentMasterScore` fallback.
- `legacy_engine.dfy` (module `LegacyEngine`) models the older engine that the page handlers still call. It has a fallback age of 30, a linear tax, no clamp, an inner-join date query and prepend order. It uses the same pillar scorers, which are identical in both files. The contrasts between the two engines are proved.
- `vapid.dfy` (module `Vapid`) models the VAPID private-key length check, the ES256 signature buffer of section 3.4 of RFC 7518, and the JWT claims and token assembly of section 2 of RFC 8292. The 64-byte buffer is an array of `byte` (a newtype over 0..255), filled in place.
- `scheduler.dfy` (module `Scheduler`) models one scheduler tick: its gates and its exact-match trigger filter. It also models `sendPush`'s status handling on a `SubscriptionStore` class that holds a map from endpoint to subscription.
- `models.dfy` holds the record types. `wrappers.dfy` holds `Option` and `Result`, which model Go's `(value, error)` pairs.

Go's `float64` is modelled as `real`. Go's `int` is modelled as an unbounded `int`. A database is a value: the date list, the profile read and three maps from date to record. Clocks, environment variables, time zones and foreign cryptography are parameters.

Where the code and its documentation differ, the model follows the code:

- The cardio-recovery reference in `CalculateFitnessPillar` is 20 bpm (internal/services/calculations.go:102), not 25. `ScoreEngine.ExampleWeek` shows a worked week with the code's constant.
- For age 35 at a running score of 1000, the tax is 1000·35²/8000/52 = 1225/416 ≈ 2.94.
- `GetVO2MaxBaseline` compares the sex with `"male"` case-sensitively (internal/models/baselines.go:6), so `"MALE"` and `"Male"` get the female table. The test at internal/models/baselines_test.go:20 expects otherwise. `Baselines.VO2OnlyExactMale` states the code's behaviour.
- `utils.GetPreviousSundayDate`, called at internal/services/notifications.go:50, is not part of this model. The week key it returns is modelled with the same arithmetic as `getPreviousSunday` (scripts/populate_db.go:79-85).

## Model

| member | source | states |
|---|---|---|
| Baselines.VO2MaxBaseline | internal/models/baselines.go:5-37 | The baseline lies in 24..44. The male table never goes below 30 and the other table never goes above 38. |
| Baselines.VO2MaleOffset | internal/models/baselines.go:5-37 | In every age band, the male baseline exceeds the other baseline by exactly 6. |
| Baselines.VO2OnlyExactMale | internal/models/baselines.go:6-21 | Only the exact string "male" selects the male table. "MALE" and "Male" get the female values. |
| Baselines.VO2NonIncreasing | internal/models/baselines.go:5-37 | For a fixed sex, the baseline never rises with age. |
| Baselines.Bucket | internal/models/baselines.go:7-19 | The band cut points are under 30, then each decade from 30 to 69, then 70 and over. |
| Baselines.VO2Buckets | internal/models/baselines.go:7-35 | Two ages in the same band get the same baseline. |
| Baselines.ReactionTimeBaseline | internal/models/baselines.go:41-58 | The baseline is 200 ms plus 20 ms for each decade edge from 20 to 70 the age has reached, so it lies in 200..320. |
| Baselines.DecadeEdgesReached | internal/models/baselines.go:42-57 | Between 0 and 6 decade edges are reached. |
| Baselines.ReactionNonDecreasing | internal/models/baselines.go:41-58 | The reaction-time baseline never falls with age. |
| Dates.Weekday | internal/utils/utils.go:15 | A weekday is 0..6. |
| Dates.WeekdayAfter | internal/utils/utils.go:23-24 | Moving k days moves the weekday by k modulo 7, which is what AddDate relies on. |
| Dates.PreviousSunday | scripts/populate_db.go:79-85 | The result is a Sunday at most 6 days before t, equals t on a Sunday, and is t minus t's weekday. |
| Dates.PreviousSundayUnique | scripts/populate_db.go:79-85 | Any Sunday s with s ≤ t < s + 7 is the previous Sunday, so the week key is well defined. |
| Dates.PreviousSundayIdempotent | scripts/populate_db.go:79-85 | The week key of a week key is itself. |
| Dates.PreviousSundayShift | scripts/populate_db.go:79-85 | Going back whole weeks shifts the key by the same number of weeks. |
| Dates.SeedWeekKeys | scripts/populate_db.go:35-38 | The seeding loop writes 13 keys: the previous Sunday of today − 7i for i = 12 down to 0. |
| Dates.SeedWeekKey | scripts/populate_db.go:35-38 | The key of today − 7(12 − j) days is a Sunday, 12 − j weeks before today's key. |
| Dates.SeedWeekKeysSpacing | scripts/populate_db.go:35-38 | The 13 seeded keys are Sundays exactly 7 days apart. The last is the current week's key. |
| Dates.CurrentWeekSunday | internal/utils/utils.go:13-26 | The result is a Sunday between today and today + 6, and equals today on a Sunday. |
| Dates.CurrentWeekSundayVersusPrevious | internal/utils/utils.go:13-26 | The current week's Sunday is the previous Sunday on Sundays, and one week later on other days. |
| Dates.CurrentWeekBounds | internal/utils/utils.go:30-46 | The result is a Monday and the following Sunday, 6 days apart, around today. The Sunday agrees with CurrentWeekSunday. |
| Dates.CivilFromDays | internal/utils/utils.go:49-56 | A day number becomes a civil date whose month is 1..12 and whose day exists in that month of that year, leap Februaries included. Day 0 is 1970-01-01, and CivilFromDaysInverse pins down every other day. |
| Dates.YearStep | internal/utils/utils.go:49-56 | January 1 of the next year lies 365 days later, or 366 after a leap year. |
| Dates.CivilFromDaysInverse | internal/utils/utils.go:49-56 | For every day number n, the closed-form count DaysFromCivil of the date CivilFromDays(n) is n. That count is whole years since 1970 with their leap days, then the months before the date, then its day. So each day number names its own date. |
| Dates.CivilFromYear | internal/utils/utils.go:49-56 | Walking whole years off a day offset always lands on an existing day of an existing month. |
| Dates.CivilFromMonth | internal/utils/utils.go:49-56 | Walking whole months off a day offset within a year always lands on an existing day of an existing month. |
| Dates.DaysIn | internal/utils/utils.go:64 | A month has 28..31 days, and February has 29 exactly in leap years, as time.Parse checks. |
| Dates.CurrentWeekRangeLabel | internal/utils/utils.go:48-56 | The label carries a year exactly when Monday and Sunday fall in different years, and that year is Sunday's. |
| Dates.NumberOfDigits | internal/utils/utils.go:64 | A zero-padded field of a number below 10^width reads back as that number. |
| Dates.DigitsOfNumber | internal/utils/utils.go:64 | A digit string is the zero-padded rendering of its own value. |
| Dates.FormatDate | internal/utils/utils.go:19 | For a valid date of years 0-9999, the "2006-01-02" rendering has 10 characters with dashes at positions 4 and 7, and its year, month and day fields read back as the date's own. |
| Dates.ParseDate | internal/utils/utils.go:64-67 | A parse succeeds only on a valid calendar date (year 0..9999, real month and day) whose canonical rendering is exactly the input. |
| Dates.ParseFormatRoundTrip | internal/utils/utils.go:64-67 | Every valid date formats to a string that parses back to it. |
| Dates.CompletedYearsUnique | internal/utils/utils.go:69-74 | At most one count of completed years fits a birth date and a "now". |
| Dates.YearsBetween | internal/utils/utils.go:69-74 | The year difference, minus one before the birthday, is the number of completed years: the k-th anniversary is not after now, and the (k+1)-th is. |
| Dates.YearsBetweenNonNegative | internal/utils/utils.go:69-74 | A birth date not after now gives a non-negative age. |
| Dates.GetAge | internal/utils/utils.go:59-77 | An empty birth date is the missing-date error. The result is an error exactly when the date does not parse, and otherwise the completed years. |
| ScoreEngine.HealthPillar | internal/services/calculations.go:88-95 | The health pillar is non-negative when sleep, waist-to-height ratio, resting heart rate and nutrition are all at or better than their references, and non-positive when all are at or worse. The legacy copy in longevity.go is the same text. |
| ScoreEngine.FitnessPillar | internal/services/calculations.go:97-105 | The fitness pillar is non-negative when VO2max, workouts, steps, mobility and recovery are all at or above their references, and non-positive when all are at or below. The legacy copy in longevity.go is the same text. |
| ScoreEngine.CognitionPillar | internal/services/calculations.go:107-113 | The cognition pillar is non-negative when n-back level, reaction time (lower is better) and mindfulness are all at or better than their references, and non-positive when all are at or worse. The legacy copy in longevity.go is the same text. |
| ScoreEngine.PillarsNeutralAtReference | internal/services/calculations.go:88-113 | A week exactly at every reference value scores 0 in each pillar. |
| ScoreEngine.PillarWeights | internal/services/calculations.go:88-113 | These are each metric's exact marginal weights. Both divisions are exact: one step is worth 1/150 and one ms of reaction −1/2. |
| ScoreEngine.DecayRate | internal/services/calculations.go:127 | The weekly rate is age²/8000 a year spread over 52 weeks (52·8000·rate = age²), and never negative. |
| ScoreEngine.DecayRateBounds | internal/services/calculations.go:126-129 | There is no tax exactly at age 0. The rate stays at or below 1 exactly while age² ≤ 416000. |
| ScoreEngine.CalculateMasterScore | internal/services/calculations.go:115-138 | The pillars are the three scorers and the tax is the running score times the rate. The new score is never negative: it is either the unclamped sum or 0, and it is never below the unclamped sum. |
| ScoreEngine.ExampleWeek | internal/services/calculations.go:88-138 | A worked week gives health 455/9, fitness 385/3, cognition 25 and tax 1225/416. |
| ScoreEngine.ScoreWeek | internal/services/calculations.go:56-71 | The entry carries the visited date and a non-negative score, and taxes the running score it starts from. |
| ScoreEngine.ZeroBaselineUsesOwnRhr | internal/services/calculations.go:56-59 | With a stored RHR baseline of 0 the week's own RHR stands in, so the health score is sleep, waist-to-height and nutrition points only. |
| ScoreEngine.Replay | internal/services/calculations.go:36-83 | There is one entry per complete date, each with a non-negative score and a date from the list. The final running score is the last entry's score, or 1000 for an empty series. |
| ScoreEngine.IncompleteDateSkipped | internal/services/calculations.go:51-54 | A date missing any pillar adds no entry and no tax. |
| ScoreEngine.CompoundedAppend | internal/services/calculations.go:73-82 | Appending the week scored from the last entry's score keeps every entry chained to its predecessor. |
| ScoreEngine.Chained | internal/services/calculations.go:63-82 | Every entry is the week scored from the previous entry's score, and the first from 1000. |
| ScoreEngine.SeriesOldestFirst | internal/services/calculations.go:39-83 | A strictly descending date list gives a series ordered oldest first. |
| ScoreEngine.FirstEntryIsOldest | internal/services/calculations.go:39-83 | With a descending list, the first entry is at or before every complete date. |
| ScoreEngine.WeeklyScores | internal/services/calculations.go:25-86 | It fails exactly on a failed date read, a missing or unreadable profile, or a birth date that gives no age while dates exist. On success, scores are non-negative and there is one per complete date. |
| ScoreEngine.GetAllWeeklyScores | internal/services/calculations.go:25-86 | The countdown loop, with its in-loop age check and its skip of incomplete dates, returns exactly WeeklyScores. |
| ScoreEngine.GetCurrentMasterScore | internal/services/calculations.go:14-23 | The result is never negative. An error or an empty series yields the default entry (today, 1000); otherwise the result is the series' first entry. |
| ScoreEngine.CurrentScoreIsOldestWeek | internal/services/calculations.go:14-23 | Because the series is oldest first, the "current" entry is the oldest complete week. |
| LegacyEngine.GetAge | internal/models/longevity.go:53-69 | An unparseable birth date, including the empty one, gives 30. Otherwise the result is the completed years. |
| LegacyEngine.AgeAgainstCurrentRevision | internal/models/longevity.go:53-69 | It agrees with utils.GetAge where that succeeds, and gives 30 where that reports an error. |
| LegacyEngine.DecayRate | internal/models/longevity.go:230-231 | The weekly rate is age/200 a year spread over 52 weeks (52·200·rate = age), and never negative for a non-negative age. |
| LegacyEngine.DecayRatesCompared | internal/models/longevity.go:230-231 | The two engines tax equally only at ages 0 and 40. The age-squared rate is higher exactly above 40. |
| LegacyEngine.CalculateMasterScore | internal/models/longevity.go:218-243 | Same pillars, a linear tax, and a score change of exactly pillars minus tax, with no clamp. |
| LegacyEngine.NegativeScoreExample | internal/models/longevity.go:239-241 | A bad week drives the legacy score below 0, while the current engine stops at 0. |
| LegacyEngine.ScoreWeek | internal/models/longevity.go:118-174 | The entry carries the date, the linear tax, and a change of exactly pillars minus tax. |
| LegacyEngine.ZeroBaselineUsesOwnRhr | internal/models/longevity.go:119-122 | With a stored RHR baseline of 0 the week's own RHR stands in, so the health score is sleep, waist-to-height and nutrition points only. |
| LegacyEngine.Replay | internal/models/longevity.go:107-176 | There is one entry per complete date. The final running score is the FIRST entry's score, because entries are prepended, or 1000 for an empty series. |
| LegacyEngine.NewestFirstPrepend | internal/models/longevity.go:165-172 | Prepending an entry newer than all others keeps the series newest first. |
| LegacyEngine.SeriesNewestFirst | internal/models/longevity.go:111-172 | A descending date list gives a series ordered newest first. |
| LegacyEngine.CompoundedPrepend | internal/models/longevity.go:165-174 | Putting in front the week scored from the series' first entry (or from 1000) keeps every entry scored from the one after it. |
| LegacyEngine.LegacyChained | internal/models/longevity.go:109-174 | Compounding: each entry was scored from the running score of the next (older) entry, and the oldest from 1000. |
| LegacyEngine.JoinedDatesAllScored | internal/models/longevity.go:111-172 | When every date is complete, each date gets its entry, in list order. |
| LegacyEngine.RowDates | internal/models/longevity.go:89-96 | The scanned dates are those of the rows, in row order. |
| LegacyEngine.ScanDates | internal/models/longevity.go:89-96 | The scan loop fails exactly when some row does not scan. Otherwise it returns the rows' dates in order. |
| LegacyEngine.WeeklyScores | internal/models/longevity.go:75-179 | It fails exactly on a query error, a scan error or a profile-read error. No profile is an empty series, not an error. |
| LegacyEngine.Countdown | internal/models/longevity.go:107-176 | The countdown loop, which puts each complete date's entry in front, returns exactly the replay's series. |
| LegacyEngine.GetAllWeeklyScores | internal/models/longevity.go:75-179 | After the gates, the scan loop and the prepending countdown loop, the result is exactly WeeklyScores. |
| LegacyEngine.GetCurrentMasterScore | internal/models/longevity.go:181-190 | An error or an empty series yields the default entry. Otherwise the result is the series' first entry. |
| LegacyEngine.CurrentScoreIsLatestWeek | internal/models/longevity.go:181-190 | Here the first entry is the LATEST week: its date is after every other entry's. |
| LegacyEngine.CurrentScoreIsFinalScore | internal/models/longevity.go:181-190 | For any non-empty series the shown score is the replay's final running score. |
| LegacyEngine.JoinedRowsAllScored | internal/models/longevity.go:76-83 | Inner-join rows are all complete, so every row is scored, in row order. |
| Vapid.ValueBound | internal/services/notifications.go:165-168 | k big-endian bytes read as a number below 256^k. |
| Vapid.MinimalBytesValue | internal/services/notifications.go:191-192 | Reading the minimal big-endian bytes of n gives back n. |
| Vapid.MinimalBytesNoLeadingZero | internal/services/notifications.go:191-192 | The minimal bytes of a positive number never start with 0. |
| Vapid.MinimalBytesLength | internal/services/notifications.go:190-197 | A number below 256^k takes at most k bytes, so r and s fit their 32-byte halves. |
| Vapid.LeftPad | internal/services/notifications.go:194-197 | Padding is right-aligned in the given width, with zeros before it. |
| Vapid.LeftPadValue | internal/services/notifications.go:194-197 | Leading zero bytes do not change the number. |
| Vapid.DecodePrivateKey | internal/services/notifications.go:147-170 | A base64 error propagates and a length other than 32 is rejected with that length. Success requires exactly 32 bytes accepted by the curve, and D is their big-endian value, below 256^32. |
| Vapid.SignatureBytes | internal/services/notifications.go:190-197 | The signature is 64 bytes: the first 32 read back as r and the last 32 as s. |
| Vapid.CopyInto | internal/services/notifications.go:196-197 | A copy writes the window and leaves every other byte unchanged. |
| Vapid.Signature | internal/services/notifications.go:195-197 | The zeroed 64-byte array filled by the two copies equals SignatureBytes(r, s). |
| Vapid.Audience | internal/services/notifications.go:104 | The audience is the scheme, then "://", then the host. |
| Vapid.AudienceSplits | internal/services/notifications.go:104 | The audience `scheme://host` splits back into exactly its scheme and host. |
| Vapid.VapidClaims | internal/services/notifications.go:175-179 | aud is the audience, exp is exactly 24 hours after now (within the limit of section 2 of RFC 8292), and sub is the fixed mailto: contact. |
| Vapid.Ascii | internal/services/notifications.go:173 | For ASCII text, one byte per character, each holding the character's code. |
| Vapid.TokenSegments | internal/services/notifications.go:183-199 | Three dot-free parts joined with dots split back into exactly those parts. |
| Vapid.CreateVapidToken | internal/services/notifications.go:172-200 | It fails exactly when the signer fails. Otherwise the token splits into the encoded header, the encoded claims, and the encoded 64-byte signature over the first two segments. |
| Vapid.TokenCarriesOrigin | internal/services/notifications.go:98-105 | The token built for an endpoint's origin carries the claims with that origin as aud and an expiry 24 hours ahead; the aud reads back to the scheme and host. |
| Scheduler.ShouldSend | internal/services/notifications.go:76-88 | A subscription is due exactly when the clock of its zone, or the UTC clock when the zone does not resolve, equals its reminder weekday and "HH:MM". |
| Scheduler.Due | internal/services/notifications.go:73-94 | A subscription is dispatched exactly when its local weekday and local "HH:MM" both equal its reminder settings. |
| Scheduler.UnknownZoneUsesUtc | internal/services/notifications.go:76-80 | An unresolvable zone is judged on the UTC clock and is still judged. |
| Scheduler.DueSubscriptions | internal/services/notifications.go:73-94 | The loop with its shouldSend flag returns exactly Due, in list order. |
| Scheduler.Tick | internal/services/notifications.go:38-95 | Each gate stops the tick: a read error, no subscriptions, a complete current week, an unset key or a key that fails to decode. Otherwise the tick dispatches exactly the due subscriptions with the decoded key. |
| Scheduler.CheckAndSendNotifications | internal/services/notifications.go:38-95 | The early returns and the loop with its shouldSend flag return exactly Tick. |
| Scheduler.Classify | internal/services/notifications.go:123-145 | 404 and 410 are stale. Any other status ≥ 400 is rejected. Failures before a response deliver nothing. |
| Scheduler.StaleEndpoints | internal/services/notifications.go:134-140 | This is exactly the set of endpoints whose push came back 404 or 410. |
| Scheduler.SubscriptionStore.constructor | internal/services/notifications.go:136 | The store starts as the given map, keyed by endpoint. |
| Scheduler.SubscriptionStore.Delete | internal/services/notifications.go:136 | Deleting removes that endpoint and nothing else, and keeps the keying. |
| Scheduler.SubscriptionStore.SendPush | internal/services/notifications.go:97-145 | A stale verdict removes exactly the pushed endpoint. Every other outcome leaves the store unchanged. |
| Scheduler.SubscriptionStore.Deliver | internal/services/notifications.go:90-93 | After a tick's pushes, the store is the old store minus exactly the stale endpoints: every subscription removed was one whose push came back 404 or 410, and every such endpoint is gone. |

## Left out

- Concurrency is not modelled. The scheduler's ticker goroutine and the fire-and-forget `go sendPush` become one sequential tick followed by sequential pushes (`Scheduler.SubscriptionStore.Deliver`).
- Persistence and SQL are not modelled. Stores are values or maps, and a per-date read error is indistinguishable from an absent record, as in the code. The resting-heart-rate baseline is a parameter. Deletion errors in `sendPush` are only logged, so the model does not represent them.
- Foreign cryptography and encodings enter as uninterpreted function parameters: base64url, JSON, SHA-256, ECDSA signing, `crypto/rand` and P-256 key validation. The public-key coordinates derived from the key are not modelled.
- HTTP request building, headers and the client timeout are not modelled; only the outcome of a push is.
- `time.Now`, `time.LoadLocation` and "15:04" formatting are parameters. Go re-reads the clock at each call. The model uses one instant per call, so a day boundary crossed during a run is not captured.
- Text formatting of the week range is not modelled. The label is kept as two civil dates and an optional year.
- Floating point is not modelled: `float64` is `real`, with no rounding, NaN or infinity. A height of 0 or less is excluded by `HeightPositive`. Go would turn a height of 0 into an infinite ratio and would score a negative height finitely.
- Go's 64-bit integer wrap-around is not modelled.
- Stored dates are modelled as day numbers, so they are assumed well-formed. A malformed date string in the database cannot be represented. Such strings would order as text in Go's SQL queries.
- The handlers, templates, middleware, the Gemini client and the browser front end are not part of this model. Neither is the seeding of random sample data in the seeding script.
- ScoreEngine.CalculateMasterScore: the Go function takes the profile and recomputes the age inside, ignoring a birth-date error (age 0). The model passes in the age, computed against the same "now". That error cannot arise there, because the replay has already checked the age.
- LegacyEngine.CalculateMasterScore: the Go function takes the profile and recomputes the age inside. The model passes in that age, computed against the same "now".
- Vapid.Signature: r and s are required to be below 256^32. ECDSA over P-256 guarantees this. The Go code would otherwise panic on the slice bounds, which is not modelled.
- Vapid.SignatureBytes: the same bound on r and s is required, for the same reason.
- `url.Parse` of the endpoint is not modelled. The scheme and host it yields are parameters of `Vapid.TokenCarriesOrigin`, and `Scheduler.SubscriptionStore.SendPush` takes the outcome of the whole push.
- The push request's header format is not modelled. The code sends `WebPush <token>` plus `Crypto-Key`; its test expects the `vapid t=…, k=…` form. The two are not reconciled.
