/** The spaced-repetition scheduler (src/core/FsrsScheduler.h,
    src/core/FsrsScheduler.cpp): a card's memory state, the four ratings, the
    fixed weight vector, the helper formulas and `schedule`.

    Doubles are modelled as reals; `std::exp` and `std::pow` are supplied by
    the caller as a `Math` value and are otherwise unconstrained. Time is
    integer seconds and a day is 86400 seconds. */
module Fsrs {

  /** A QDateTime: either null (default-constructed) or a moment in seconds. */
  datatype Instant = Unset | At(seconds: int)

  /** FsrsCard. `state` stays an integer, as in the source: 0 New,
      1 Learning, 2 Review, 3 Relearning; any other value is handled by the
      Review branch of Schedule. */
  datatype Card = Card(
    id: int,
    wordId: int,
    state: int,
    due: Instant,
    stability: real,
    difficulty: real,
    elapsedDays: int,
    scheduledDays: int,
    reps: int,
    lapses: int,
    lastReview: Instant)

  const New := 0
  const Learning := 1
  const Review := 2
  const Relearning := 3

  /** A default-constructed FsrsCard. */
  const DefaultCard := Card(-1, -1, New, Unset, 0.0, 0.0, 0, 0, 0, 0, Unset)

  /** FsrsRating::Rating. */
  type Rating = r: int | 1 <= r <= 4 witness 1

  const Again: Rating := 1
  const Hard: Rating := 2
  const Good: Rating := 3
  const Easy: Rating := 4

  const SecondsPerDay := 86400

  /** The weight vector w[0..16]. */
  const W: seq<real> := [
    0.4, 0.6, 2.4, 5.8, 4.93, 0.94, 0.86, 0.01, 1.49, 0.14, 0.94,
    2.18, 0.05, 0.34, 1.26, 0.29, 2.61]

  /** The transcendental functions the formulas call. */
  datatype Math = Math(exp: real -> real, pow: (real, real) -> real)

  /** std::max on doubles: `(a < b) ? b : a`. */
  function Max(a: real, b: real): (r: real)
    ensures r >= a && r >= b && (r == a || r == b)
  {
    if a < b then b else a
  }

  /** std::min on doubles: `(b < a) ? b : a`. */
  function Min(a: real, b: real): (r: real)
    ensures r <= a && r <= b && (r == a || r == b)
  {
    if b < a then b else a
  }

  /** std::round: to the nearest integer, halves away from zero. */
  function Round(x: real): (n: int)
    ensures x - 0.5 <= n as real <= x + 0.5
    ensures x >= 0.0 ==> n >= 0
  {
    if x >= 0.0 then (x + 0.5).Floor else -((-x + 0.5).Floor)
  }

  function InitStability(rating: Rating): (s: real)
    ensures s >= 0.1
  {
    Max(0.1, W[rating - 1])
  }

  function InitDifficulty(rating: Rating): (d: real)
    ensures 1.0 <= d <= 10.0
  {
    Min(10.0, Max(1.0, W[4] - W[5] * (rating - 3) as real))
  }

  function NextDifficulty(d: real, rating: Rating): (r: real)
    ensures 1.0 <= r <= 10.0
  {
    var nextD := d - W[6] * (rating - 3) as real;
    Min(10.0, Max(1.0, W[7] * W[4] + (1.0 - W[7]) * nextD))
  }

  /** What the formulas rely on of `std::exp` and `std::pow`: exp is
      positive and above 1 on positive arguments, and a power of a positive
      base is positive. */
  ghost predicate RealSigns(m: Math) {
    && (forall x: real :: m.exp(x) > 0.0)
    && (forall x: real :: x > 0.0 ==> m.exp(x) > 1.0)
    && (forall b: real, e: real :: b > 0.0 ==> m.pow(b, e) > 0.0)
  }

  /** The stability after a successful review. Only the Hard and Good
      ratings have their own factor; every other rating uses Easy's. With
      the real signs of exp and pow, a card of positive stability and a
      difficulty below 11 always comes out more stable; at difficulty 11
      the stability stays. */
  function NextStability(m: Math, s: real, d: real, rating: Rating): (r: real)
    ensures RealSigns(m) && s > 0.0 && d < 11.0 ==> r > s
    ensures d == 11.0 ==> r == s
  {
    var exponent :=
      if rating == Hard then (1.0 - W[10]) * W[11]
      else if rating == Good then W[10] * W[11]
      else (1.0 + W[12]) * W[11];
    var growth := m.exp(exponent) - 1.0;
    var gain := m.exp(W[8]) * (11.0 - d) * m.pow(s, -W[9]) * growth;
    assert RealSigns(m) && s > 0.0 && d < 11.0 ==> gain > 0.0 by {
      if RealSigns(m) && s > 0.0 && d < 11.0 {
        assert exponent > 0.0;
        assert growth > 0.0;
      }
    }
    s * (1.0 + gain)
  }

  /** The stability after a lapse: never more than before. */
  function NextForgetStability(m: Math, s: real, d: real, rating: Rating): (r: real)
    ensures r <= s
  {
    Min(s, W[11] * m.pow(d, -W[12]) * (m.pow(s + 1.0, W[13]) - 1.0) * m.exp(W[14] * (1 - rating) as real))
  }

  /** The next interval in days: at least one. */
  function NextInterval(s: real): (days: int)
    ensures days >= 1
  {
    var n := Round(s * 9.0);
    if 1 < n then n else 1
  }

  /** `schedule`: the card after one rating at time `now`. The card is taken
      by value and a new one is returned. */
  function Schedule(m: Math, card: Card, rating: Rating, now: int): (next: Card)
    ensures next.reps == card.reps + 1 && next.lastReview == At(now)
    ensures next.id == card.id && next.wordId == card.wordId
    ensures next.elapsedDays == card.elapsedDays
  {
    var base := card.(lastReview := At(now), reps := card.reps + 1);
    if card.state == New then
      var s := InitStability(rating);
      var d := InitDifficulty(rating);
      var started := base.(stability := s, difficulty := d,
                         state := if rating == Again then Learning else Review);
      if rating == Again then started.(scheduledDays := 0, due := At(now + 60))
      else if rating == Hard then started.(scheduledDays := 0, due := At(now + 300))
      else if rating == Good then started.(scheduledDays := 0, due := At(now + 600))
      else
        var days := NextInterval(s);
        started.(scheduledDays := days, due := At(now + days * SecondsPerDay), state := Review)
    else if card.state == Learning || card.state == Relearning then
      if rating == Again then base.(scheduledDays := 0, due := At(now + 60))
      else if rating == Good then
        var s := InitStability(Good);
        var days := NextInterval(s);
        base.(state := Review, stability := s, difficulty := InitDifficulty(Good),
              scheduledDays := days, due := At(now + days * SecondsPerDay))
      else base
    else if rating == Again then
      base.(lapses := card.lapses + 1, state := Relearning,
            stability := NextForgetStability(m, card.stability, card.difficulty, rating),
            difficulty := NextDifficulty(card.difficulty, rating),
            scheduledDays := 0, due := At(now + 60))
    else
      var s := NextStability(m, card.stability, card.difficulty, rating);
      var days := NextInterval(s);
      base.(stability := s, difficulty := NextDifficulty(card.difficulty, rating),
            scheduledDays := days, due := At(now + days * SecondsPerDay))
  }

  // ---------------------------------------------------------------------
  // The weights and the helper formulas

  /** The first four weights are at least 0.1, so the max in InitStability
      never applies and the initial stability is the rating's weight. */
  lemma InitStabilityIsWeight(rating: Rating)
    ensures InitStability(rating) == W[rating - 1]
    ensures InitStability(Again) == 0.4 && InitStability(Hard) == 0.6
    ensures InitStability(Good) == 2.4 && InitStability(Easy) == 5.8
  {
  }

  /** A better rating never gives a higher initial difficulty. */
  lemma InitDifficultyAntitone(r1: Rating, r2: Rating)
    requires r1 <= r2
    ensures InitDifficulty(r2) <= InitDifficulty(r1)
  {
  }

  /** A better rating never gives a higher next difficulty, and a harder
      card never gets an easier next difficulty. */
  lemma NextDifficultyMonotone(d1: real, d2: real, r1: Rating, r2: Rating)
    requires d1 <= d2 && r2 <= r1
    ensures NextDifficulty(d1, r1) <= NextDifficulty(d2, r2)
  {
  }

  /** The intervals the source schedules from a fresh stability:
      Good gives 22 days (2.4 * 9 = 21.6), Easy 52 days (5.8 * 9 = 52.2). */
  lemma InitialIntervals()
    ensures NextInterval(InitStability(Good)) == 22
    ensures NextInterval(InitStability(Easy)) == 52
  {
    assert InitStability(Good) * 9.0 + 0.5 == 22.1;
    assert InitStability(Easy) * 9.0 + 0.5 == 52.7;
  }

  /** Longer stability never gives a shorter interval. */
  lemma NextIntervalMonotone(s1: real, s2: real)
    requires s1 <= s2
    ensures NextInterval(s1) <= NextInterval(s2)
  {
    RoundMonotone(s1 * 9.0, s2 * 9.0);
  }

  lemma RoundMonotone(x: real, y: real)
    requires x <= y
    ensures Round(x) <= Round(y)
  {
  }

  // ---------------------------------------------------------------------
  // The transition table

  /** A New card: initial stability and difficulty for the rating; Again
      goes to Learning in a minute, Hard and Good go to Review (state 2) in
      five and ten minutes, Easy goes to Review for 52 days. */
  lemma ScheduleFromNew(m: Math, card: Card, rating: Rating, now: int)
    requires card.state == New
    ensures var next := Schedule(m, card, rating, now);
      && next.stability == InitStability(rating)
      && next.difficulty == InitDifficulty(rating)
      && next.lapses == card.lapses
      && next.state == (if rating == Again then Learning else Review)
      && next.scheduledDays == (if rating == Easy then 52 else 0)
      && next.due == At(now + (if rating == Again then 60
                               else if rating == Hard then 300
                               else if rating == Good then 600
                               else 52 * SecondsPerDay))
  {
    InitialIntervals();
  }

  /** A Learning or Relearning card: Again only moves the due time a minute
      ahead, Good graduates it to Review for 22 days with Good's initial
      stability and difficulty, and Hard and Easy leave everything but the
      review count and time as they were. */
  lemma ScheduleFromLearning(m: Math, card: Card, rating: Rating, now: int)
    requires card.state == Learning || card.state == Relearning
    ensures var next := Schedule(m, card, rating, now);
      var touched := card.(reps := card.reps + 1, lastReview := At(now));
      && (rating == Again ==> next == touched.(scheduledDays := 0, due := At(now + 60)))
      && (rating == Good ==>
            next == touched.(state := Review, stability := 2.4,
                             difficulty := InitDifficulty(Good), scheduledDays := 22,
                             due := At(now + 22 * SecondsPerDay)))
      && (rating == Hard || rating == Easy ==> next == touched)
  {
    InitialIntervals();
  }

  /** A Review card (or any state other than 0, 1, 3): Again is a lapse and
      goes to Relearning in a minute with a stability no greater than
      before; Hard, Good and Easy keep the state and schedule at least a day
      ahead, the due time matching the scheduled days. */
  lemma ScheduleFromReview(m: Math, card: Card, rating: Rating, now: int)
    requires card.state != New && card.state != Learning && card.state != Relearning
    ensures var next := Schedule(m, card, rating, now);
      && (rating == Again ==>
            && next.lapses == card.lapses + 1 && next.state == Relearning
            && next.stability == NextForgetStability(m, card.stability, card.difficulty, rating)
            && next.stability <= card.stability
            && next.scheduledDays == 0 && next.due == At(now + 60))
      && (rating != Again ==>
            && next.lapses == card.lapses && next.state == card.state
            && next.stability == NextStability(m, card.stability, card.difficulty, rating)
            && next.scheduledDays >= 1
            && next.due == At(now + next.scheduledDays * SecondsPerDay))
      && next.difficulty == NextDifficulty(card.difficulty, rating)
  {
  }

  /** Lapses are counted exactly on an Again rating outside states 0, 1, 3. */
  lemma LapsesCountOnlyReviewFailures(m: Math, card: Card, rating: Rating, now: int)
    ensures var next := Schedule(m, card, rating, now);
      next.lapses == card.lapses + (if rating == Again && card.state !in {New, Learning, Relearning} then 1 else 0)
  {
  }

  /** Once scheduled, a card never returns to New, and its difficulty stays
      within [1, 10] from then on: a card that is New or already in that
      shape is in that shape after any rating. */
  predicate Scheduled(card: Card) {
    card.state != New && 1.0 <= card.difficulty <= 10.0 && card.reps >= 1
  }

  lemma ScheduleKeepsScheduled(m: Math, card: Card, rating: Rating, now: int)
    requires card.reps >= 0
    requires card.state == New || Scheduled(card)
    ensures Scheduled(Schedule(m, card, rating, now))
  {
  }

  /** The due time never lies before `now`: at least a minute ahead, except
      for the no-op ratings on a Learning or Relearning card. */
  lemma DueNotBeforeNow(m: Math, card: Card, rating: Rating, now: int)
    ensures var next := Schedule(m, card, rating, now);
      || next.due == card.due
      || (next.due.At? && next.due.seconds >= now + 60)
  {
    if card.state == New && rating == Easy {
      InitialIntervals();
    }
  }
}
