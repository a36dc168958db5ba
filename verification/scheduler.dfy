/** The simplified SM-2 scheduler of the progress route. The ease factor is held in
    integer tenths (2.5 is 25), so every step is exact; instants are milliseconds. */
module Scheduler {
  import opened Wrappers
  import Schema

  /** Lowest ease a miss can leave behind: 1.3. */
  const EaseFloor: int := 13
  /** A miss lowers the ease by 0.2. */
  const MissPenalty: int := 2
  /** A hit raises the ease by 0.1, without an upper bound. */
  const HitBonus: int := 1
  /** One day, the unit of `interval`, in milliseconds. */
  const MsPerDay: int := 86_400_000

  /** The farthest a JavaScript `Date` may lie from the epoch: 8.64e15 ms, 1e8 days.
      A time value beyond it is an Invalid Date. */
  const MaxTimeMs: int := 8_640_000_000_000_000

  predicate InDateRange(t: int) {
    -MaxTimeMs <= t <= MaxTimeMs
  }

  /** A clock reading: `new Date()` is always a valid date. */
  type Instant = t: int | InDateRange(t)

  /** The three values the scheduler hands back to the route. The due date is `None`
      when `setDate` has pushed it out of the `Date` range. */
  datatype Schedule = Schedule(newInterval: int, newEase: int, nextReview: Option<int>)

  /** The due date exists and a `timestamp` column can hold it. */
  predicate StorableDue(s: Schedule) {
    s.nextReview.Some? && Schema.Storable(s.nextReview.value)
  }

  /** `setDate(getDate() + days)` on a clock reading: `days` whole days later, or an
      Invalid Date once that leaves the range. */
  function AddDays(now: Instant, days: int): (due: Option<int>)
    ensures due.Some? <==> InDateRange(now + days * MsPerDay)
    ensures due.Some? ==> due.value == now + days * MsPerDay
  {
    var t := now + days * MsPerDay;
    if InDateRange(t) then Some(t) else None
  }

  function Max(a: int, b: int): int {
    if a >= b then a else b
  }

  /** `Math.round(interval * ease)` with the ease in tenths: the nearest integer,
      halves rounded upward as JavaScript does. */
  function RoundProduct(interval: int, easeTenths: int): (r: int)
    ensures 10 * r - 5 <= interval * easeTenths < 10 * r + 5
  {
    (interval * easeTenths + 5) / 10
  }

  /** The rounded product is never negative for non-negative factors, and with an
      ease of at least 1.3 it exceeds any interval of two days or more. */
  lemma ProductBounds(interval: int, easeTenths: int)
    ensures interval >= 0 && easeTenths >= 0 ==> RoundProduct(interval, easeTenths) >= 0
    ensures interval >= 2 && easeTenths >= EaseFloor ==> RoundProduct(interval, easeTenths) > interval
  {

  }

  /** `calculateSpacedRepetition`. A miss makes the card due at once with a lower
      (floored) ease; a hit walks the interval 0 -> 1 -> 6 -> round(i * e), raises the
      ease by exactly 0.1 and schedules the card that many days from now, which is an
      Invalid Date when it lies past the `Date` range. */
  function Next(isCorrect: bool, oldInterval: int, oldEase: int, now: Instant): (s: Schedule)
    ensures !isCorrect ==> s.newInterval == 0 && s.nextReview == Some(now)
    ensures !isCorrect ==> s.newEase >= EaseFloor
    ensures !isCorrect && oldEase - MissPenalty >= EaseFloor ==> s.newEase == oldEase - MissPenalty
    ensures !isCorrect && oldEase - MissPenalty < EaseFloor ==> s.newEase == EaseFloor
    ensures isCorrect ==> s.newEase == oldEase + HitBonus
    ensures isCorrect && oldInterval == 0 ==> s.newInterval == 1
    ensures isCorrect && oldInterval == 1 ==> s.newInterval == 6
    ensures isCorrect && oldInterval != 0 && oldInterval != 1 ==>
      10 * s.newInterval - 5 <= oldInterval * oldEase < 10 * s.newInterval + 5
    ensures isCorrect ==> (s.nextReview.Some? <==> InDateRange(now + s.newInterval * MsPerDay))
    ensures isCorrect && s.nextReview.Some? ==> s.nextReview.value == now + s.newInterval * MsPerDay
    ensures oldInterval >= 0 && oldEase >= 0 ==> s.newInterval >= 0
    ensures oldInterval >= 0 && oldEase >= 0 && s.nextReview.Some? ==> s.nextReview.value >= now
    ensures isCorrect && oldInterval >= 0 && oldEase >= EaseFloor ==> s.newInterval > oldInterval
  {
    if !isCorrect then
      Schedule(0, Max(EaseFloor, oldEase - MissPenalty), Some(now))
    else
      var interval :=
        if oldInterval == 0 then 1
        else if oldInterval == 1 then 6
        else RoundProduct(oldInterval, oldEase);
      ProductBounds(oldInterval, oldEase);
      Schedule(interval, oldEase + HitBonus, AddDays(now, interval))
  }

  /** Whenever a due date is produced, the interval fits the `integer` (int4) column:
      a date within the range lies at most 2e8 days from any clock reading. */
  lemma ValidDueDateKeepsIntervalInt4(isCorrect: bool, oldInterval: int, oldEase: int, now: Instant)
    ensures Next(isCorrect, oldInterval, oldEase, now).nextReview.Some? ==>
      -0x8000_0000 <= Next(isCorrect, oldInterval, oldEase, now).newInterval < 0x8000_0000
  {
    var s := Next(isCorrect, oldInterval, oldEase, now);
    if isCorrect && s.nextReview.Some? {
      var t := s.newInterval * 86_400_000;
      assert t == s.newInterval * MsPerDay;
      assert InDateRange(now) && InDateRange(now + t);
      assert -2 * MaxTimeMs <= t <= 2 * MaxTimeMs;
    }
  }

  /** The scheduling state a record can be in after any sequence of answers
      starting from the column defaults. */
  predicate Healthy(interval: int, ease: int) {
    interval >= 0 && ease >= EaseFloor
  }

  /** Interval and ease after answering `answers` in order (the time of each answer
      only moves the due date, which the next answer overwrites). */
  function Replay(answers: seq<bool>, interval: int, ease: int): (int, int)
  {
    if |answers| == 0 then (interval, ease)
    else
      var s := Next(answers[0], interval, ease, 0);
      Replay(answers[1..], s.newInterval, s.newEase)
  }

  /** Whatever the answers, a healthy record stays healthy: the interval is never
      negative and the ease never drops below 1.3. */
  lemma {:induction false} ReplayStaysHealthy(answers: seq<bool>, interval: int, ease: int)
    requires Healthy(interval, ease)
    ensures Healthy(Replay(answers, interval, ease).0, Replay(answers, interval, ease).1)
  {
    if |answers| > 0 {
      var s := Next(answers[0], interval, ease, 0);
      ReplayStaysHealthy(answers[1..], s.newInterval, s.newEase);
    }
  }

  /** `n` misses in a row pin the ease at max(1.3, e - 0.2 n), and leave the card due now. */
  lemma {:induction false} MissesLowerEaseToFloor(n: nat, interval: int, ease: int)
    requires n >= 1
    ensures Replay(seq(n, _ => false), interval, ease) == (0, Max(EaseFloor, ease - MissPenalty * n))
  {
    var answers := seq(n, _ => false);
    var s := Next(false, interval, ease, 0);
    if n == 1 {
      assert answers[1..] == [];
    } else {
      assert answers[1..] == seq(n - 1, _ => false);
      MissesLowerEaseToFloor(n - 1, s.newInterval, s.newEase);
    }
  }

  /** `n` hits in a row raise the ease by exactly 0.1 n, and from a healthy state each
      one lengthens the interval, so it is at least `n` days past the start. */
  lemma {:induction false} HitsRaiseEaseAndInterval(n: nat, interval: int, ease: int)
    requires Healthy(interval, ease)
    ensures Replay(seq(n, _ => true), interval, ease).1 == ease + HitBonus * n
    ensures Replay(seq(n, _ => true), interval, ease).0 >= interval + n
  {
    var answers := seq(n, _ => true);
    if n > 0 {
      var s := Next(true, interval, ease, 0);
      assert answers[1..] == seq(n - 1, _ => true);
      HitsRaiseEaseAndInterval(n - 1, s.newInterval, s.newEase);
    }
  }

  /** `n` hits in a row from (interval, ease), step by step. */
  function HitStreak(n: nat, interval: int, ease: int): (int, int)
    decreases n
  {
    if n == 0 then (interval, ease)
    else
      var s := Next(true, interval, ease, 0);
      HitStreak(n - 1, s.newInterval, s.newEase)
  }

  lemma {:induction false} HitStreakIsReplay(n: nat, interval: int, ease: int)
    ensures HitStreak(n, interval, ease) == Replay(seq(n, _ => true), interval, ease)
    decreases n
  {
    if n > 0 {
      var s := Next(true, interval, ease, 0);
      assert seq(n, _ => true)[1..] == seq(n - 1, _ => true);
      HitStreakIsReplay(n - 1, s.newInterval, s.newEase);
    }
  }

  lemma HitStreakStep(n: nat, interval: int, ease: int)
    ensures HitStreak(n + 1, interval, ease) == HitStreak(n, Next(true, interval, ease, 0).newInterval, ease + 1)
  {
  }

  /** A record at the column defaults (interval 0, ease 2.5) reaches an interval of
      2 038 878 days and an ease of 3.8 after thirteen hits in a row. The walk goes through
      local variables, one hit at a time. */
  lemma ThirteenHitsFromDefaults(interval: int, ease: int)
    requires interval == 0 && ease == 25
    ensures Replay(seq(13, _ => true), interval, ease) == (2038878, 38)
  {
    HitStreakIsReplay(13, interval, ease);
    ThirteenHitStreak(interval, ease);
  }

  lemma ThirteenHitStreak(interval: int, ease: int)
    requires interval == 0 && ease == 25
    ensures HitStreak(13, interval, ease) == (2038878, 38)
  {
    HitStreakSplit(5, 8, interval, ease);
    FirstFiveHits(interval, ease);
    var (i, e) := HitStreak(5, interval, ease);
    HitStreakSplit(5, 3, i, e);
    MiddleFiveHits(i, e);
    var (i', e') := HitStreak(5, i, e);
    ThreeMoreHits(i', e');
  }

  /** Two more hits carry the same record to 30 216 170 days and an ease of 4.0. */
  lemma FifteenHitsFromDefaults(interval: int, ease: int)
    requires interval == 0 && ease == 25
    ensures Replay(seq(15, _ => true), interval, ease) == (30216170, 40)
  {
    HitStreakIsReplay(15, interval, ease);
    HitStreakSplit(13, 2, interval, ease);
    ThirteenHitStreak(interval, ease);
    var (i, e) := HitStreak(13, interval, ease);
    TwoMoreHits(i, e);
  }

  lemma {:induction false} HitStreakSplit(a: nat, b: nat, interval: int, ease: int)
    ensures HitStreak(a + b, interval, ease)
      == HitStreak(b, HitStreak(a, interval, ease).0, HitStreak(a, interval, ease).1)
    decreases a
  {
    if a > 0 {
      var s := Next(true, interval, ease, 0);
      HitStreakSplit(a - 1, b, s.newInterval, s.newEase);
    }
  }

  lemma FirstFiveHits(interval: int, ease: int)
    requires interval == 0 && ease == 25
    ensures HitStreak(5, interval, ease) == (131, 30)
  {
    var i, e := interval, ease;
    HitStreakStep(4, i, e);
    i, e := Next(true, i, e, 0).newInterval, e + 1;
    assert i == 1;
    HitStreakStep(3, i, e);
    i, e := Next(true, i, e, 0).newInterval, e + 1;
    assert i == 6;
    HitStreakStep(2, i, e);
    i, e := Next(true, i, e, 0).newInterval, e + 1;
    assert i == 16;
    HitStreakStep(1, i, e);
    i, e := Next(true, i, e, 0).newInterval, e + 1;
    assert i == 45;
    HitStreakStep(0, i, e);
    i, e := Next(true, i, e, 0).newInterval, e + 1;
    assert i == 131;
  }

  lemma MiddleFiveHits(interval: int, ease: int)
    requires interval == 131 && ease == 30
    ensures HitStreak(5, interval, ease) == (43734, 35)
  {
    var i, e := interval, ease;
    HitStreakStep(4, i, e);
    i, e := Next(true, i, e, 0).newInterval, e + 1;
    assert i == 393;
    HitStreakStep(3, i, e);
    i, e := Next(true, i, e, 0).newInterval, e + 1;
    assert i == 1218;
    HitStreakStep(2, i, e);
    i, e := Next(true, i, e, 0).newInterval, e + 1;
    assert i == 3898;
    HitStreakStep(1, i, e);
    i, e := Next(true, i, e, 0).newInterval, e + 1;
    assert i == 12863;
    HitStreakStep(0, i, e);
    i, e := Next(true, i, e, 0).newInterval, e + 1;
    assert i == 43734;
  }

  lemma ThreeMoreHits(interval: int, ease: int)
    requires interval == 43734 && ease == 35
    ensures HitStreak(3, interval, ease) == (2038878, 38)
  {
    var i, e := interval, ease;
    HitStreakStep(2, i, e);
    i, e := Next(true, i, e, 0).newInterval, e + 1;
    assert i == 153069;
    HitStreakStep(1, i, e);
    i, e := Next(true, i, e, 0).newInterval, e + 1;
    assert i == 551048;
    HitStreakStep(0, i, e);
    i, e := Next(true, i, e, 0).newInterval, e + 1;
    assert i == 2038878;
  }

  lemma TwoMoreHits(interval: int, ease: int)
    requires interval == 2038878 && ease == 38
    ensures HitStreak(2, interval, ease) == (30216170, 40)
  {
    var i, e := interval, ease;
    HitStreakStep(1, i, e);
    i, e := Next(true, i, e, 0).newInterval, e + 1;
    assert i == 7747736;
    HitStreakStep(0, i, e);
    i, e := Next(true, i, e, 0).newInterval, e + 1;
    assert i == 30216170;
  }

  /** The fourteenth hit of that streak, answered at any time after 1970, asks for a due
      date 7 747 736 days on: past the end of year 9999, or past the `Date` range, so no
      `timestamp` column can hold it. */
  lemma FourteenthHitIsNotStorable(now: Instant)
    requires now >= 0
    ensures Next(true, 2038878, 38, now).newInterval == 7747736
    ensures !StorableDue(Next(true, 2038878, 38, now))
  {
    assert 7747736 * MsPerDay == 669_404_390_400_000;
  }

  /** The sixteenth hit asks for a due date 120 864 680 days on, past the `Date` range
      itself: the date is an Invalid Date. */
  lemma SixteenthHitLeavesDateRange(now: Instant)
    requires now >= 0
    ensures Next(true, 30216170, 40, now).newInterval == 120864680
    ensures Next(true, 30216170, 40, now).nextReview.None?
  {
    assert 120864680 * MsPerDay == 10_442_708_352_000_000;
  }

  /** The correction: when the clock reading itself can be stored, a hit's interval is
      clamped so that the due date stays within the range a `timestamp` column stores;
      everything else is `Next`. */
  function ClampedNext(isCorrect: bool, oldInterval: int, oldEase: int, now: Instant): (s: Schedule)
    ensures Schema.Storable(now) ==> StorableDue(s)
    ensures StorableDue(Next(isCorrect, oldInterval, oldEase, now)) ==>
      s == Next(isCorrect, oldInterval, oldEase, now)
    ensures s.newEase == Next(isCorrect, oldInterval, oldEase, now).newEase
    ensures oldInterval >= 0 && oldEase >= 0 ==>
      0 <= s.newInterval <= Next(isCorrect, oldInterval, oldEase, now).newInterval
  {
    var s := Next(isCorrect, oldInterval, oldEase, now);
    if !Schema.Storable(now) || StorableDue(s) then s
    else
      assert s.newInterval * MsPerDay == s.newInterval * 86_400_000;
      assert InDateRange(now);
      if now + s.newInterval * MsPerDay > Schema.LatestTimestampMs then
        var days := (Schema.LatestTimestampMs - now) / 86_400_000;
        assert days * MsPerDay == days * 86_400_000;
        assert days * 86_400_000 <= Schema.LatestTimestampMs - now;
        Schedule(days, s.newEase, AddDays(now, days))
      else
        var days := -((now - Schema.EarliestTimestampMs) / 86_400_000);
        assert days * MsPerDay == days * 86_400_000;
        assert -days * 86_400_000 <= now - Schema.EarliestTimestampMs;
        assert oldInterval >= 0 && oldEase >= 0 ==> now + s.newInterval * 86_400_000 >= now;
        Schedule(days, s.newEase, AddDays(now, days))
  }

  /** From the column defaults (interval 0, ease 2.5), three hits give intervals
      1, 6 and round(6 * 2.7) = 16 days and an ease of 2.8. */
  lemma FreshRecordHitSequence()
    ensures Replay([true], 0, 25) == (1, 26)
    ensures Replay([true, true], 0, 25) == (6, 27)
    ensures Replay([true, true, true], 0, 25) == (16, 28)
  {
  }
}
