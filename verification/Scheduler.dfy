/** The spaced-repetition scheduler (`MnemozaAlgorithm`): a two-phase rule.
    Cards in the learning phase (`isNew`) get fixed steps of 1 minute,
    10 minutes, 1 day or 4 days; cards in review follow an SM-2-like rule
    with an ease-factor floor of 1.3, whole-day intervals, and demotion to
    learning on AGAIN. The clock is the parameter `now`. */
module Scheduler {
  import opened Wrappers
  import opened CardTypes
  import opened Numbers
  import Seqs

  const INITIAL_INTERVAL: real := 1.0
  const INITIAL_EASE_FACTOR: real := 2.5
  const MIN_EASE_FACTOR: real := 1.3
  const EASE_FACTOR_CHANGE: real := 0.1
  const MINUTES_PER_DAY: int := 24 * 60

  /** Learning steps, in minutes. */
  const AGAIN_MINUTES: int := 1
  const HARD_MINUTES: int := 10

  predicate IsWhole(x: real)
  {
    x == x.Floor as real
  }

  function MaxReal(a: real, b: real): real
  {
    if a >= b then a else b
  }

  /** The invariant the scheduler keeps: the ease factor never drops below
      its floor, and a card in review has a whole number of days, at least one. */
  predicate WellScheduled(card: Card)
  {
    card.easeFactor >= MIN_EASE_FACTOR
    && card.interval >= 0.0
    && (!card.isNew ==> card.interval >= 1.0 && IsWhole(card.interval))
  }

  /** `createNewCard`: a fresh card, in the learning phase and due at once.
      The id stands for the one `generateUUID` supplies. */
  function CreateNewCard(id: Id, front: string, back: string, deckId: Id, now: Timestamp): (card: Card)
    ensures card.id == id && card.front == front && card.back == back && card.deckId == deckId
    ensures StatusOf(card, now) == New && card.nextReviewDate == now
    ensures card.createdAt == now && card.updatedAt == now
    ensures card.interval == 1.0 && card.repetitions == 0 && card.easeFactor == 2.5
    ensures WellScheduled(card)
  {
    Card(id, front, back, deckId, INITIAL_INTERVAL, 0, INITIAL_EASE_FACTOR, now, now, now, true)
  }

  /** The product of two scheduling quantities (interval times ease factor). */
  function Scale(a: real, b: real): real
  {
    a * b
  }

  /** A whole number of days in milliseconds (`days * 24 * 60 * 60 * 1000`). */
  function DaysToMs(days: int): int
  {
    days * 86400000
  }

  /** What one review decides: the new scheduling fields and the delay to the next review. */
  datatype Step = Step(interval: real, repetitions: int, easeFactor: real, delayMs: int, isNew: bool)

  /** The learning-phase table: minutes for AGAIN and HARD, graduation for GOOD and EASY. */
  function LearningStep(card: Card, result: ReviewResult): Step
  {
    match result
    case Again => Step(AGAIN_MINUTES as real / MINUTES_PER_DAY as real, 0, card.easeFactor, AGAIN_MINUTES * MINUTE_MS, true)
    case Hard => Step(HARD_MINUTES as real / MINUTES_PER_DAY as real, 0, card.easeFactor, HARD_MINUTES * MINUTE_MS, true)
    case Good => Step(1.0, 1, card.easeFactor, DAY_MS, false)
    case Easy => Step(4.0, 1, card.easeFactor, 4 * DAY_MS, false)
  }

  /** The review-phase rule; intervals are rounded to whole days. */
  function ReviewStep(card: Card, result: ReviewResult): Step
  {
    match result
    case Again =>
      Step(AGAIN_MINUTES as real / MINUTES_PER_DAY as real, 0,
           MaxReal(card.easeFactor - 0.2, MIN_EASE_FACTOR), AGAIN_MINUTES * MINUTE_MS, true)
    case Hard =>
      var r := Round(card.interval * 1.2);
      var days := if 1 >= r then 1 else r;
      Step(days as real, card.repetitions + 1,
           MaxReal(card.easeFactor - EASE_FACTOR_CHANGE, MIN_EASE_FACTOR), DaysToMs(days), false)
    case Good =>
      var days := Round(Scale(card.interval, card.easeFactor));
      Step(days as real, card.repetitions + 1, card.easeFactor, DaysToMs(days), false)
    case Easy =>
      var days := Round(Scale(Scale(card.interval, card.easeFactor), 1.3)) + 4;
      Step(days as real, card.repetitions + 1, card.easeFactor + EASE_FACTOR_CHANGE, DaysToMs(days), false)
  }

  /** `updateCard`: the card after one review at time `now`. Only the
      scheduling fields and `updatedAt` change; the next review lies exactly
      `interval` days after `now` (lemma NextReviewAfterInterval); the card is (back) in learning exactly
      after AGAIN, or after HARD while still learning; the ease-factor floor is kept. */
  function UpdateCard(card: Card, result: ReviewResult, now: Timestamp): (next: Card)
    ensures next == card.(interval := next.interval, repetitions := next.repetitions,
                          easeFactor := next.easeFactor, nextReviewDate := next.nextReviewDate,
                          updatedAt := now, isNew := next.isNew)
    ensures next.isNew <==> result == Again || (card.isNew && result == Hard)
    ensures next.isNew ==> next.repetitions == 0
    ensures card.isNew ==> next.easeFactor == card.easeFactor
    ensures card.easeFactor >= MIN_EASE_FACTOR ==> next.easeFactor >= MIN_EASE_FACTOR
  {
    var step := if card.isNew then LearningStep(card, result) else ReviewStep(card, result);
    card.(interval := step.interval, repetitions := step.repetitions, easeFactor := step.easeFactor,
          nextReviewDate := now + step.delayMs, updatedAt := now, isNew := step.isNew)
  }

  /** The learning-phase table, row by row. */
  lemma LearningPhase(card: Card, result: ReviewResult, now: Timestamp)
    requires card.isNew
    ensures var next := UpdateCard(card, result, now);
      && next.easeFactor == card.easeFactor
      && (result == Again ==> next.interval == 1.0 / 1440.0 && next.repetitions == 0 && next.isNew
                              && next.nextReviewDate == now + MINUTE_MS)
      && (result == Hard ==> next.interval == 10.0 / 1440.0 && next.repetitions == 0 && next.isNew
                             && next.nextReviewDate == now + 10 * MINUTE_MS)
      && (result == Good ==> next.interval == 1.0 && next.repetitions == 1 && !next.isNew
                             && next.nextReviewDate == now + DAY_MS)
      && (result == Easy ==> next.interval == 4.0 && next.repetitions == 1 && !next.isNew
                             && next.nextReviewDate == now + 4 * DAY_MS)
  {
  }

  /** Review AGAIN: back to learning with a one-minute step, repetitions
      reset, the ease factor lowered by 0.2 but not below 1.3. */
  lemma ReviewAgain(card: Card, now: Timestamp)
    requires !card.isNew
    ensures var next := UpdateCard(card, Again, now);
      && next.interval == 1.0 / 1440.0 && next.repetitions == 0 && next.isNew
      && next.easeFactor == MaxReal(card.easeFactor - 0.2, 1.3)
      && next.nextReviewDate == now + MINUTE_MS
  {
  }

  /** Review HARD: 1.2 times the interval, rounded, at least one day; the
      ease factor lowered by 0.1 but not below 1.3. */
  lemma ReviewHard(card: Card, now: Timestamp)
    requires !card.isNew
    ensures var next := UpdateCard(card, Hard, now);
      && next.interval == (if Round(card.interval * 1.2) <= 1 then 1 else Round(card.interval * 1.2)) as real
      && next.easeFactor == MaxReal(card.easeFactor - 0.1, 1.3)
      && next.repetitions == card.repetitions + 1 && !next.isNew
  {
    var step := ReviewStep(card, Hard);
    assert UpdateCard(card, Hard, now).interval == step.interval;
  }

  /** Review GOOD: the interval times the ease factor, rounded; ease kept. */
  lemma ReviewGood(card: Card, now: Timestamp)
    requires !card.isNew
    ensures var next := UpdateCard(card, Good, now);
      && next.interval == Round(Scale(card.interval, card.easeFactor)) as real
      && next.easeFactor == card.easeFactor
      && next.repetitions == card.repetitions + 1 && !next.isNew
  {
    var days := Round(Scale(card.interval, card.easeFactor));
    assert ReviewStep(card, Good) == Step(days as real, card.repetitions + 1, card.easeFactor, DaysToMs(days), false);
  }

  /** Review EASY: the interval times the ease factor times 1.3, rounded,
      plus a four-day bonus; the ease factor raised by 0.1. */
  lemma ReviewEasy(card: Card, now: Timestamp)
    requires !card.isNew
    ensures var next := UpdateCard(card, Easy, now);
      && next.interval == (Round(Scale(Scale(card.interval, card.easeFactor), 1.3)) + 4) as real
      && next.easeFactor == card.easeFactor + 0.1
      && next.repetitions == card.repetitions + 1 && !next.isNew
  {
    var days := Round(Scale(Scale(card.interval, card.easeFactor), 1.3)) + 4;
    assert ReviewStep(card, Easy)
        == Step(days as real, card.repetitions + 1, card.easeFactor + EASE_FACTOR_CHANGE, DaysToMs(days), false);
  }

  /** In every branch the next review lies `interval` days after `now`. */
  lemma NextReviewAfterInterval(card: Card, result: ReviewResult, now: Timestamp)
    ensures var next := UpdateCard(card, result, now);
      (next.nextReviewDate - now) as real == next.interval * 86400000.0
  {
    var step := if card.isNew then LearningStep(card, result) else ReviewStep(card, result);
    assert UpdateCard(card, result, now).nextReviewDate - now == step.delayMs;
    if !card.isNew && result != Again {
      var days := step.interval.Floor;
      assert step.interval == days as real;
      assert step.delayMs == days * 86400000;
    }
  }

  lemma MulMonotone(a: real, b: real, c: real)
    requires a >= 0.0 && b >= c
    ensures a * b >= a * c
  {
  }

  /** The rounding facts behind the review rule, on plain numbers. */
  lemma ReviewRounding(i: real, e: real)
    requires i >= 1.0 && IsWhole(i) && e >= MIN_EASE_FACTOR
    ensures i.Floor <= Round(i * 1.2) <= Round(Scale(i, e)) < Round(Scale(Scale(i, e), 1.3)) + 4
  {
    var n := i.Floor;
    RoundWhole(n);
    assert i == n as real;
    RoundMonotone(i, i * 1.2);
    MulMonotone(i, e, 1.3);
    RoundMonotone(i * 1.2, Scale(i, e));
    RoundMonotone(Scale(i, e), Scale(Scale(i, e), 1.3));
  }

  /** In review, a successful answer from a whole interval of at least one
      day gives a whole interval that is never shorter, and the three
      answers are ordered: HARD <= GOOD < EASY. */
  lemma ReviewIntervalsGrow(card: Card, now: Timestamp)
    requires !card.isNew && WellScheduled(card)
    ensures var hard := UpdateCard(card, Hard, now).interval;
            var good := UpdateCard(card, Good, now).interval;
            var easy := UpdateCard(card, Easy, now).interval;
      && IsWhole(hard) && IsWhole(good) && IsWhole(easy)
      && card.interval <= hard <= good < easy
  {
    ReviewRounding(card.interval, card.easeFactor);
    ReviewHard(card, now);
    ReviewGood(card, now);
    ReviewEasy(card, now);
  }

  /** Every review keeps the scheduling invariant. */
  lemma {:induction false} UpdateKeepsWellScheduled(card: Card, result: ReviewResult, now: Timestamp)
    requires WellScheduled(card)
    ensures WellScheduled(UpdateCard(card, result, now))
  {
    var next := UpdateCard(card, result, now);
    if !card.isNew && result != Again {
      ReviewIntervalsGrow(card, now);
    }
    if card.isNew && (result == Good || result == Easy) {
      assert IsWhole(next.interval);
    }
  }

  /** The worked example of a card's life: GOOD, GOOD, EASY, then AGAIN. */
  lemma WorkedExample(id: Id, deckId: Id, t0: Timestamp, t1: Timestamp, t2: Timestamp, t3: Timestamp, t4: Timestamp)
    ensures var c0 := CreateNewCard(id, "front", "back", deckId, t0);
            var c1 := UpdateCard(c0, Good, t1);
            var c2 := UpdateCard(c1, Good, t2);
            var c3 := UpdateCard(c2, Easy, t3);
            var c4 := UpdateCard(c3, Again, t4);
      && c1.interval == 1.0 && c1.repetitions == 1 && !c1.isNew && c1.nextReviewDate == t1 + DAY_MS
      && c2.interval == 3.0 && c2.repetitions == 2 && c2.nextReviewDate == t2 + 3 * DAY_MS
      && c3.interval == 14.0 && c3.easeFactor == 2.6 && c3.repetitions == 3
      && c4.interval == 1.0 / 1440.0 && c4.repetitions == 0 && c4.easeFactor == 2.4 && c4.isNew
  {
    var c0 := CreateNewCard(id, "front", "back", deckId, t0);
    var c1 := UpdateCard(c0, Good, t1);
    assert Round(1.0 * 2.5) == 3;
    var c2 := UpdateCard(c1, Good, t2);
    assert Round(3.0 * 2.5 * 1.3) == 10;
  }

  /** The unit of an interval label. */
  datatype Span = Minutes(n: int) | OneDay | Days(n: int) | Months(n: int) | Years(n: int)

  /** The ladder of `getButtonIntervalText`: minutes below a day, then days,
      30-day months from 30 days, 365-day years from 365 days. */
  function SpanOf(days: real): Span
  {
    if days < 1.0 then Minutes(Round(days * MINUTES_PER_DAY as real))
    else if days == 1.0 then OneDay
    else if days < 30.0 then Days(Round(days))
    else if days < 365.0 then Months(Round(days / 30.0))
    else Years(Round(days / 365.0))
  }

  function SpanText(span: Span): string
  {
    match span
    case Minutes(n) => IntToString(n) + "м"
    case OneDay => "1 день"
    case Days(n) => IntToString(n) + " дн."
    case Months(n) => IntToString(n) + " мес."
    case Years(n) => IntToString(n) + " г."
  }

  /** The number of days a label stands for, and its unit in days. */
  function SpanDays(span: Span): real
  {
    match span
    case Minutes(n) => n as real / MINUTES_PER_DAY as real
    case OneDay => 1.0
    case Days(n) => n as real
    case Months(n) => 30.0 * n as real
    case Years(n) => 365.0 * n as real
  }

  function SpanUnit(span: Span): real
  {
    match span
    case Minutes(_) => 1.0 / MINUTES_PER_DAY as real
    case OneDay => 1.0
    case Days(_) => 1.0
    case Months(_) => 30.0
    case Years(_) => 365.0
  }

  /** Reading a label back gives the interval to within half its unit,
      and whole day counts below a month exactly. */
  lemma SpanApproximates(days: real)
    ensures var span := SpanOf(days);
      && -SpanUnit(span) / 2.0 < SpanDays(span) - days <= SpanUnit(span) / 2.0
      && (IsWhole(days) && 1.0 <= days < 30.0 ==> SpanDays(span) == days)
  {
    if IsWhole(days) && 1.0 < days < 30.0 {
      RoundWhole(days.Floor);
    }
  }

  /** `getButtonIntervalText`: fixed labels while learning; in review the
      label of the interval `UpdateCard` would give, or "1м" on demotion. */
  function ButtonIntervalText(card: Card, result: ReviewResult, now: Timestamp): string
  {
    if card.isNew then
      match result
      case Again => "1м"
      case Hard => "10м"
      case Good => "1 день"
      case Easy => "4 дня"
    else
      var preview := UpdateCard(card, result, now);
      if preview.isNew then "1м" else SpanText(SpanOf(preview.interval))
  }

  /** The label always describes the interval `UpdateCard` produces; the
      one fixed label that is worded differently from the ladder is the
      learning EASY step, "4 дня" for the ladder's "4 дн.", both four days. */
  lemma PreviewAgreesWithUpdate(card: Card, result: ReviewResult, now: Timestamp)
    ensures var next := UpdateCard(card, result, now);
      && (!(card.isNew && result == Easy) ==> ButtonIntervalText(card, result, now) == SpanText(SpanOf(next.interval)))
      && (card.isNew && result == Easy ==> ButtonIntervalText(card, result, now) == "4 дня" && SpanOf(next.interval) == Days(4))
  {
    var next := UpdateCard(card, result, now);
    if next.isNew {
      if result == Again {
        assert next.interval * MINUTES_PER_DAY as real == 1.0;
        assert SpanOf(next.interval) == Minutes(1);
      } else {
        assert next.interval * MINUTES_PER_DAY as real == 10.0;
        assert SpanOf(next.interval) == Minutes(10);
        assert NatToString(10) == "10";
      }
    } else if card.isNew && result == Easy {
      RoundWhole(4);
    }
  }

  /** `isDue`: the review date has come. */
  predicate IsDue(card: Card, now: Timestamp)
  {
    card.nextReviewDate <= now
  }

  /** A card is in the due bucket exactly when it has left learning and is due. */
  lemma DueBucketIffDue(card: Card, now: Timestamp)
    ensures StatusOf(card, now) == Due <==> !card.isNew && IsDue(card, now)
    ensures StatusOf(card, now) == New <==> card.isNew
  {
  }

  datatype CardStats = CardStats(total: int, newCount: int, due: int, learned: int)

  /** `getCardStats`: count the cards of each bucket in one pass. */
  method GetCardStats(cards: seq<Card>, now: Timestamp) returns (stats: CardStats)
    ensures stats.total == |cards|
    ensures stats.newCount == CountStatus(cards, New, now)
    ensures stats.due == CountStatus(cards, Due, now)
    ensures stats.learned == CountStatus(cards, Learned, now)
    ensures stats.newCount + stats.due + stats.learned == stats.total
  {
    stats := CardStats(|cards|, 0, 0, 0);
    for i := 0 to |cards|
      invariant stats.total == |cards|
      invariant stats.newCount == CountStatus(cards[..i], New, now)
      invariant stats.due == CountStatus(cards[..i], Due, now)
      invariant stats.learned == CountStatus(cards[..i], Learned, now)
    {
      var card := cards[i];
      CountStatusSnoc(cards, i, New, now);
      CountStatusSnoc(cards, i, Due, now);
      CountStatusSnoc(cards, i, Learned, now);
      if card.isNew {
        stats := stats.(newCount := stats.newCount + 1);
      } else if card.nextReviewDate <= now {
        stats := stats.(due := stats.due + 1);
      } else {
        stats := stats.(learned := stats.learned + 1);
      }
    }
    assert cards[..|cards|] == cards;
    StatusPartition(cards, now);
  }
}
