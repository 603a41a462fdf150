/**
 * Age- and sex-dependent reference values (internal/models/baselines.go).
 * Both tables are total step functions over every integer age.
 */
module Baselines {

  /**
   * Expected VO2max for an age and sex. Only the exact string "male" selects
   * the male table; every other string, whatever its case, gets the other one.
   */
  function VO2MaxBaseline(age: int, sex: string): (r: real)
    ensures 24.0 <= r <= 44.0
    ensures sex == "male" ==> 30.0 <= r
    ensures sex != "male" ==> r <= 38.0
  {
    if sex == "male" then
      if age < 30 then 44.0
      else if age < 40 then 42.0
      else if age < 50 then 39.0
      else if age < 60 then 36.0
      else if age < 70 then 33.0
      else 30.0
    else
      if age < 30 then 38.0
      else if age < 40 then 36.0
      else if age < 50 then 33.0
      else if age < 60 then 30.0
      else if age < 70 then 27.0
      else 24.0
  }

  /** The male table is the other table shifted up by exactly 6.0 at every age. */
  lemma VO2MaleOffset(age: int, other: string)
    requires other != "male"
    ensures VO2MaxBaseline(age, "male") - VO2MaxBaseline(age, other) == 6.0
  {
  }

  /** Sex matters only through the exact test against "male". */
  lemma VO2OnlyExactMale(age: int, sex: string)
    ensures VO2MaxBaseline(age, sex) == if sex == "male" then VO2MaxBaseline(age, "male") else VO2MaxBaseline(age, "female")
    ensures VO2MaxBaseline(age, "MALE") == VO2MaxBaseline(age, "female")
    ensures VO2MaxBaseline(age, "Male") == VO2MaxBaseline(age, "female")
  {
  }

  /** The expected VO2max never rises with age. */
  lemma VO2NonIncreasing(younger: int, older: int, sex: string)
    requires younger <= older
    ensures VO2MaxBaseline(older, sex) <= VO2MaxBaseline(younger, sex)
  {
  }

  /** The value is constant inside each bucket [<30, 30-39, 40-49, 50-59, 60-69, 70+]. */
  lemma VO2Buckets(a: int, b: int, sex: string)
    requires Bucket(a) == Bucket(b)
    ensures VO2MaxBaseline(a, sex) == VO2MaxBaseline(b, sex)
  {
  }

  /** Index of the ten-year bucket that both tables switch on: 0 below 30, 5 from 70. */
  function Bucket(age: int): (k: int)
    ensures 0 <= k <= 5
    ensures k == 0 <==> age < 30
    ensures k == 5 <==> age >= 70
    ensures 0 < k < 5 ==> 20 + 10 * k <= age < 30 + 10 * k
  {
    if age < 30 then 0 else if age >= 70 then 5 else (age - 20) / 10
  }

  /**
   * Expected simple reaction time in milliseconds: 200 below 20, then 20 more
   * for each decade edge 20, 30, ..., 70 the age has reached (edges inclusive).
   */
  function ReactionTimeBaseline(age: int): (r: int)
    ensures 200 <= r <= 320
    ensures r == 200 + 20 * DecadeEdgesReached(age)
  {
    if age < 20 then 200
    else if age < 30 then 220
    else if age < 40 then 240
    else if age < 50 then 260
    else if age < 60 then 280
    else if age < 70 then 300
    else 320
  }

  /** How many of the edges 20, 30, 40, 50, 60, 70 are at or below the age. */
  function DecadeEdgesReached(age: int): (n: int)
    ensures 0 <= n <= 6
  {
    Reached(20, age) + Reached(30, age) + Reached(40, age)
      + Reached(50, age) + Reached(60, age) + Reached(70, age)
  }

  function Reached(edge: int, age: int): int {
    if edge <= age then 1 else 0
  }

  /** Reaction baseline never falls with age. */
  lemma ReactionNonDecreasing(younger: int, older: int)
    requires younger <= older
    ensures ReactionTimeBaseline(younger) <= ReactionTimeBaseline(older)
  {
  }
}
