/** The "open now" badge of src/components/Hero.tsx: whether the shop is open
    at a weekday (0 = Sunday, as Date#getDay numbers them) and a minute of
    the day. */
module Hero {

  /** The minute of the day a clock reading names. */
  function MinuteOfDay(hour: int, minute: int): (t: int)
    ensures 0 <= hour < 24 && 0 <= minute < 60 ==> 0 <= t < 1440 && t / 60 == hour && t % 60 == minute
  {
    hour * 60 + minute
  }

  /** checkBusinessHours: each day opens at its first minute (inclusive) and
      closes at its closing minute (exclusive); any other day value is closed. */
  predicate IsOpen(day: int, t: int)
    ensures IsOpen(day, t) ==> 0 <= day < 7 && 10 * 60 <= t < 20 * 60
  {
    if day == 1 then 14 * 60 <= t < 18 * 60
    else if 2 <= day <= 5 then 10 * 60 <= t < 20 * 60
    else if day == 6 then 10 * 60 <= t < 18 * 60
    else if day == 0 then 11 * 60 <= t < 18 * 60
    else false
  }

  /** The hours the contact section publishes, Monday first, as
      (opening hour, closing hour) on the 24-hour clock. */
  const PublishedHours: seq<(int, int)> := [(14, 18), (10, 20), (10, 20), (10, 20), (10, 20), (10, 18), (11, 18)]

  /** Where a getDay value sits in the published list (Sunday last). */
  function PublishedIndex(day: int): (i: int)
    requires 0 <= day < 7
    ensures 0 <= i < 7
  {
    if day == 0 then 6 else day - 1
  }

  /** The badge agrees with the published hours on every day and minute. */
  lemma OpenMatchesPublishedHours(day: int, t: int)
    ensures IsOpen(day, t) <==>
      (0 <= day < 7
       && PublishedHours[PublishedIndex(day)].0 * 60 <= t < PublishedHours[PublishedIndex(day)].1 * 60)
  {
  }

  /** Opening is inclusive and closing exclusive, on every open day. */
  lemma OpeningBoundaries(day: int)
    requires 0 <= day < 7
    ensures IsOpen(day, PublishedHours[PublishedIndex(day)].0 * 60)
    ensures !IsOpen(day, PublishedHours[PublishedIndex(day)].1 * 60)
    ensures !IsOpen(day, PublishedHours[PublishedIndex(day)].0 * 60 - 1)
  {
    OpenMatchesPublishedHours(day, PublishedHours[PublishedIndex(day)].0 * 60);
    OpenMatchesPublishedHours(day, PublishedHours[PublishedIndex(day)].1 * 60);
    OpenMatchesPublishedHours(day, PublishedHours[PublishedIndex(day)].0 * 60 - 1);
  }
}
