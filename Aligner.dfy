/**
  The half-month aligner (`to_half_month`): every sample date is mapped to the first day of its
  half of the month, in one fixed year, so that samples of different years overlay on one axis.
*/
module Aligner {
  import opened Dates

  /** The year every aligned date is placed in. */
  const ALIGN_YEAR: int := 2000
  /** Days 1..LAST_FIRST_HALF_DAY form the first half of a month. */
  const LAST_FIRST_HALF_DAY: int := 14
  /** The day the second half of a month starts on; the first half starts on day 1. */
  const SECOND_HALF_DAY: int := 15

  function ToHalfMonth(d: ValidDate): ValidDate
  {
    Date(ALIGN_YEAR, d.month, if d.day <= LAST_FIRST_HALF_DAY then 1 else SECOND_HALF_DAY)
  }

  /** The set of all aligned dates: day 1 and day 15 of each month of the year 2000. */
  predicate IsHalfMonthStart(b: Date)
  {
    b.year == ALIGN_YEAR && 1 <= b.month <= 12 && (b.day == 1 || b.day == SECOND_HALF_DAY)
  }

  /**
    The bucket is the start of the half-month that contains the date: same month, day 1 for days
    1 to 14 and day 15 for days 15 to 31, in the year 2000.
  */
  lemma BucketOfDate(d: ValidDate)
    ensures IsHalfMonthStart(ToHalfMonth(d))
    ensures ToHalfMonth(d).month == d.month
    ensures ToHalfMonth(d).day == 1 <==> 1 <= d.day <= LAST_FIRST_HALF_DAY
    ensures ToHalfMonth(d).day == SECOND_HALF_DAY <==> SECOND_HALF_DAY <= d.day <= 31
  {
  }

  /** Two dates share a bucket exactly when they have the same month and lie in the same half. */
  lemma SameBucket(d1: ValidDate, d2: ValidDate)
    ensures ToHalfMonth(d1) == ToHalfMonth(d2) <==>
            d1.month == d2.month && (d1.day <= LAST_FIRST_HALF_DAY <==> d2.day <= LAST_FIRST_HALF_DAY)
  {
  }

  /** The bucket forgets the year: the same month and day in any other year give the same bucket. */
  lemma YearInvariant(d: ValidDate, y: int)
    requires IsValid(Date(y, d.month, d.day))
    ensures ToHalfMonth(Date(y, d.month, d.day)) == ToHalfMonth(d)
  {
  }

  /** Each of the 24 half-month starts is its own bucket, so aligning twice changes nothing. */
  lemma BucketsAreFixedPoints(b: ValidDate)
    requires IsHalfMonthStart(b)
    ensures ToHalfMonth(b) == b
  {
  }

  lemma AlignIdempotent(d: ValidDate)
    ensures ToHalfMonth(ToHalfMonth(d)) == ToHalfMonth(d)
  {
    BucketsAreFixedPoints(ToHalfMonth(d));
  }
}
