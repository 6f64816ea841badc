/** The spaced-repetition scheduler: from the rating a learner gives after
    answering, and how often the question was reviewed before, it computes when
    the question is next due and whether it is finished for its study group.
    Instants are milliseconds on an abstract clock; "now" is a parameter. */
module Review {
  import opened Domain

  /** Milliseconds in a day: 24 * 60 * 60 * 1000. */
  const DayMillis: nat := 86_400_000

  /** The largest multiplier, 1.5, in tenths. */
  const MaxMultiplierTenths: nat := 15

  datatype Decision = Decision(nextReviewDate: int, isCompleted: bool)

  /** Days until the next review before the review-count adjustment. */
  function BaseIntervalDays(rating: MasteryLevel): (d: nat)
    requires rating != Expertise
    ensures d >= 1
    ensures rating == Beginner ==> d == 1
  {
    match rating
    case Beginner => 1
    case Intermediate => 2
    case Proficiency => 5
  }

  /** min(1 + 0.1 * reviewCount, 1.5), in tenths. */
  function MultiplierTenths(reviewCount: nat): (m: nat)
    ensures 10 <= m <= MaxMultiplierTenths
    ensures m == MaxMultiplierTenths <==> reviewCount >= 5
    ensures m - 10 <= reviewCount
  {
    if 10 + reviewCount < MaxMultiplierTenths then 10 + reviewCount else MaxMultiplierTenths
  }

  /** `Math.round(x / 10)`: the integer nearest to x / 10, halves rounded up. */
  function RoundTenths(x: nat): (r: nat)
    ensures 10 * r - 5 <= x < 10 * r + 5
  {
    (x + 5) / 10
  }

  /** Days until the next review for a non-finishing rating:
      round(base * multiplier), with the product taken in tenths. The products
      that fall on a half (1.5, 5.5, 6.5, 7.5) are exact in binary floating
      point, so half-up rounding of the tenths agrees with the source's doubles. */
  function IntervalDays(rating: MasteryLevel, reviewCount: nat): (d: nat)
    requires rating != Expertise
    ensures 10 * d - 5 <= BaseIntervalDays(rating) * MultiplierTenths(reviewCount) < 10 * d + 5
  {
    RoundTenths(BaseIntervalDays(rating) * MultiplierTenths(reviewCount))
  }

  /** `computeReview`: `current` is the mastery stored before this answer,
      `rating` the learner's new self-assessment. A missing review count is
      read as 0 before it reaches `reviewCount`. */
  function ComputeReview(current: MasteryLevel, reviewCount: nat, rating: MasteryLevel, now: int): (r: Decision)
    ensures rating == Expertise ==> r.isCompleted && r.nextReviewDate == now
    ensures rating != Expertise ==> !r.isCompleted
    ensures rating != Expertise ==> r.nextReviewDate == now + IntervalDays(rating, reviewCount) * DayMillis
  {
    if rating == Expertise then Decision(now, true)
    else
      var base := BaseIntervalDays(rating);
      // A downgrade to Beginner forces a one-day base, which it already is.
      var base' := if rating == Beginner && current != Beginner then 1 else base;
      var interval := RoundTenths(base' * MultiplierTenths(reviewCount));
      Decision(now + interval * DayMillis, false)
  }

  /** Only an Expertise rating finishes a question. */
  lemma CompletedIffExpertise(current: MasteryLevel, reviewCount: nat, rating: MasteryLevel, now: int)
    ensures ComputeReview(current, reviewCount, rating, now).isCompleted <==> rating == Expertise
  {
  }

  /** Every scheduled interval lies between one and eight days. */
  lemma {:induction false} IntervalBounds(rating: MasteryLevel, reviewCount: nat)
    requires rating != Expertise
    ensures 1 <= IntervalDays(rating, reviewCount) <= 8
  {
    var m := MultiplierTenths(reviewCount);
    var b := BaseIntervalDays(rating);
    assert b <= 5;
    assert b * m <= 5 * m <= 75;
    assert 10 <= b * m;
  }

  /** A non-finishing rating always schedules a review strictly after now,
      at least one day and at most eight days later. */
  lemma ScheduledInFuture(current: MasteryLevel, reviewCount: nat, rating: MasteryLevel, now: int)
    requires rating != Expertise
    ensures var next := ComputeReview(current, reviewCount, rating, now).nextReviewDate;
      now + DayMillis <= next <= now + 8 * DayMillis
  {
    IntervalBounds(rating, reviewCount);
  }

  /** The full schedule, in days, by rating and review count. */
  lemma IntervalTable(rating: MasteryLevel, reviewCount: nat)
    requires rating != Expertise
    ensures rating == Beginner ==> IntervalDays(rating, reviewCount) == (if reviewCount < 5 then 1 else 2)
    ensures rating == Intermediate ==> IntervalDays(rating, reviewCount) == (if reviewCount < 3 then 2 else 3)
    ensures rating == Proficiency ==>
              IntervalDays(rating, reviewCount)
              == (if reviewCount == 0 then 5 else if reviewCount <= 2 then 6 else if reviewCount <= 4 then 7 else 8)
  {
  }

  /** A Beginner rating is scheduled two days ahead, not daily, once the
      question has been reviewed five times; the rating button promises daily review. */
  lemma BeginnerNotDailyAfterFiveReviews(current: MasteryLevel, reviewCount: nat, now: int)
    requires reviewCount >= 5
    ensures ComputeReview(current, reviewCount, Beginner, now).nextReviewDate == now + 2 * DayMillis
  {
    IntervalTable(Beginner, reviewCount);
  }

  /** More reviews never shorten the interval. */
  lemma {:induction false} IntervalMonotoneInCount(rating: MasteryLevel, rc1: nat, rc2: nat)
    requires rating != Expertise
    requires rc1 <= rc2
    ensures IntervalDays(rating, rc1) <= IntervalDays(rating, rc2)
  {
    var b := BaseIntervalDays(rating);
    var m1, m2 := MultiplierTenths(rc1), MultiplierTenths(rc2);
    assert m1 <= m2;
    assert b * m1 <= b * m2;
  }

  /** From the fifth review on, the interval no longer grows. */
  lemma IntervalConstantFromFive(rating: MasteryLevel, rc1: nat, rc2: nat)
    requires rating != Expertise
    requires 5 <= rc1 && 5 <= rc2
    ensures IntervalDays(rating, rc1) == IntervalDays(rating, rc2)
  {
  }

  /** A stronger rating never shortens the interval. */
  lemma {:induction false} IntervalMonotoneInRating(r1: MasteryLevel, r2: MasteryLevel, reviewCount: nat)
    requires r1 != Expertise && r2 != Expertise
    requires Rank(r1) <= Rank(r2)
    ensures IntervalDays(r1, reviewCount) <= IntervalDays(r2, reviewCount)
  {
    var m := MultiplierTenths(reviewCount);
    var b1, b2 := BaseIntervalDays(r1), BaseIntervalDays(r2);
    assert b1 <= b2;
    assert b1 * m <= b2 * m;
  }

  /** The mastery stored before the answer never affects the decision: the
      downgrade branch assigns the base interval the value it already has. */
  lemma PriorMasteryIrrelevant(a: MasteryLevel, b: MasteryLevel, reviewCount: nat, rating: MasteryLevel, now: int)
    ensures ComputeReview(a, reviewCount, rating, now) == ComputeReview(b, reviewCount, rating, now)
  {
  }

  /** Worked schedules, with now = 2024-01-01T00:00:00Z. */
  lemma ScheduleExamples()
    ensures ComputeReview(Beginner, 0, Beginner, 1704067200000) == Decision(1704153600000, false)
    ensures ComputeReview(Beginner, 0, Intermediate, 1704067200000) == Decision(1704240000000, false)
    ensures ComputeReview(Beginner, 0, Proficiency, 1704067200000) == Decision(1704499200000, false)
    ensures ComputeReview(Beginner, 10, Proficiency, 1704067200000) == Decision(1704758400000, false)
    ensures ComputeReview(Proficiency, 7, Expertise, 1704067200000) == Decision(1704067200000, true)
    ensures ComputeReview(Proficiency, 3, Beginner, 1704067200000) == Decision(1704153600000, false)
  {
  }
}
