/** A study session over one deck (`useStudySessionModel`): a queue of the
    deck's due cards followed by up to twenty new ones, a position in it,
    the answer shown or hidden, a re-entry guard for a review in progress,
    and running statistics; plus the arithmetic of `studyUtils`. */
module StudySession {
  import opened Wrappers
  import opened CardTypes
  import opened Numbers
  import Scheduler
  import Database

  /** How many new cards a session takes at most. */
  const NEW_CARDS_PER_SESSION: int := 20

  // ------------------------------------------------------------ studyUtils

  /** `calculateProgress`: the percentage of the queue already behind. */
  function CalculateProgress(currentIndex: int, totalCards: int): (p: real)
    ensures totalCards <= 0 ==> p == 0.0
    ensures totalCards > 0 ==> p * totalCards as real == currentIndex as real * 100.0
  {
    if totalCards > 0 then currentIndex as real / totalCards as real * 100.0 else 0.0
  }

  /** While the position is inside the queue, progress lies in [0, 100). */
  lemma ProgressBounds(currentIndex: int, totalCards: int)
    requires 0 <= currentIndex < totalCards
    ensures 0.0 <= CalculateProgress(currentIndex, totalCards) < 100.0
  {
    var p := CalculateProgress(currentIndex, totalCards);
    var t := totalCards as real;
    assert p * t == currentIndex as real * 100.0;
    assert currentIndex as real * 100.0 < t * 100.0;
    assert p * t < 100.0 * t;
  }

  datatype SessionStats = SessionStats(cardsStudied: nat, correct: nat, startTime: Timestamp)

  /** `formatTime`: whole minutes since `startTime`, or "меньше минуты" below one. */
  function FormatTime(startTime: Timestamp, now: Timestamp): (s: string)
    ensures now - startTime < 60000 ==> s == "меньше минуты"
    ensures now - startTime >= 60000 ==> s == NatToString((now - startTime) / 60000) + " мин."
  {
    var minutes := (now - startTime) / 60000;
    if minutes < 1 then "меньше минуты" else IntToString(minutes) + " мин."
  }

  datatype SessionSummary = SessionSummary(
    accuracy: int,
    duration: string,
    totalStudied: int,
    correctAnswers: int,
    incorrectAnswers: int)

  /** The share of correct answers, times 100. */
  function Percent(correct: int, studied: int): real
    requires studied > 0
  {
    correct as real / studied as real * 100.0
  }

  /** `getSessionSummary`: accuracy is the percentage of correct answers,
      rounded, and 0 before any card is studied. */
  function GetSessionSummary(stats: SessionStats, now: Timestamp): (s: SessionSummary)
    ensures s.totalStudied == stats.cardsStudied && s.correctAnswers == stats.correct
    ensures s.incorrectAnswers == stats.cardsStudied - stats.correct
    ensures stats.cardsStudied == 0 ==> s.accuracy == 0
    ensures stats.cardsStudied > 0 ==> s.accuracy == Round(Percent(stats.correct, stats.cardsStudied))
  {
    var accuracy := if stats.cardsStudied > 0 then Round(Percent(stats.correct, stats.cardsStudied)) else 0;
    SessionSummary(accuracy, FormatTime(stats.startTime, now), stats.cardsStudied, stats.correct,
                   stats.cardsStudied - stats.correct)
  }

  /** With no more correct answers than cards studied, accuracy is a
      percentage: between 0 and 100, 100 exactly when every answer was
      correct, and the incorrect answers are never negative. */
  lemma AccuracyBounds(stats: SessionStats, now: Timestamp)
    requires stats.correct <= stats.cardsStudied
    ensures var s := GetSessionSummary(stats, now);
      && 0 <= s.accuracy <= 100 && s.incorrectAnswers >= 0
      && (stats.cardsStudied > 0 && stats.correct == stats.cardsStudied ==> s.accuracy == 100)
  {
    if stats.cardsStudied > 0 {
      var q := stats.correct as real / stats.cardsStudied as real;
      UnitQuotient(stats.correct as real, stats.cardsStudied as real);
      RoundMonotone(0.0, Percent(stats.correct, stats.cardsStudied));
      RoundMonotone(Percent(stats.correct, stats.cardsStudied), 100.0);
      RoundWhole(0);
      RoundWhole(100);
      if stats.correct == stats.cardsStudied {
        assert q == 1.0;
        assert Percent(stats.correct, stats.cardsStudied) == 100.0;
      }
    }
  }

  lemma UnitQuotient(a: real, b: real)
    requires 0.0 <= a <= b && b > 0.0
    ensures 0.0 <= a / b <= 1.0
    ensures a == b ==> a / b == 1.0
  {
    var q := a / b;
    assert q * b == a;
    if a == b {
      assert q * b == 1.0 * b;
      assert (q - 1.0) * b == 0.0;
    }
  }

  /** Four right out of five is 80 percent, one wrong. */
  lemma SummaryExample(start: Timestamp)
    ensures var s := GetSessionSummary(SessionStats(5, 4, start), start + 120000);
      s.accuracy == 80 && s.incorrectAnswers == 1 && s.duration == "2 мин."
  {
    assert Percent(4, 5) == 80.0;
    RoundWhole(80);
    assert NatToString(2) == "2";
  }

  /** `shouldShowCard`: a learning card, or a card whose review date has come. */
  predicate ShouldShowCard(card: Card, now: Timestamp)
  {
    card.isNew || card.nextReviewDate <= now
  }

  /** A card is worth showing exactly when it is not in the learned bucket. */
  lemma ShouldShowIffNotLearned(card: Card, now: Timestamp)
    ensures ShouldShowCard(card, now) <==> StatusOf(card, now) != Learned
  {
  }

  // ------------------------------------------------------------ the queue

  /** The queue `loadStudyCards` builds: due cards first, then new ones. */
  function StudyQueue(cards: seq<Card>, deckId: Id, now: Timestamp): seq<Card>
  {
    Database.DueCardsOf(cards, Some(deckId), now) + Database.NewCardsOf(cards, Some(deckId), NEW_CARDS_PER_SESSION)
  }

  /** The queue is the due cards of the deck, earliest review date first,
      followed by at most twenty of its new cards, in key order. */
  lemma StudyQueueSpec(cards: seq<Card>, deckId: Id, now: Timestamp)
    ensures var due := Database.DueCardsOf(cards, Some(deckId), now);
            var newOnes := Database.NewCardsOf(cards, Some(deckId), NEW_CARDS_PER_SESSION);
      && StudyQueue(cards, deckId, now) == due + newOnes
      && Database.SortedByDate(due) && |newOnes| <= NEW_CARDS_PER_SESSION
      && (forall c :: c in due <==> c in cards && c.deckId == deckId && !c.isNew && c.nextReviewDate <= now)
      && (forall c :: c in newOnes ==> c in cards && c.deckId == deckId && c.isNew)
  {
    var newOnes := Database.NewCardsOf(cards, Some(deckId), NEW_CARDS_PER_SESSION);
    Database.DueCardsOfSpec(cards, Some(deckId), now);
    Database.NewCardsOfSpec(cards, Some(deckId), NEW_CARDS_PER_SESSION);
    forall c | c in newOnes ensures c in cards && c.deckId == deckId && c.isNew {
      var k :| 0 <= k < |newOnes| && newOnes[k] == c;
    }
  }

  /** Every queued card is a stored card of the deck that `shouldShowCard`
      accepts. */
  lemma StudyQueueShown(cards: seq<Card>, deckId: Id, now: Timestamp, c: Card)
    requires c in StudyQueue(cards, deckId, now)
    ensures c in cards && c.deckId == deckId && ShouldShowCard(c, now)
  {
    StudyQueueSpec(cards, deckId, now);
  }

  /** What `handleReview` reports: `{ sessionCompleted, error? }`. */
  datatype ReviewOutcome = ReviewOutcome(sessionCompleted: bool, error: Option<Database.DbError>)

  /** One point for GOOD or EASY. */
  function Score(result: ReviewResult): nat
  {
    if result == Good || result == Easy then 1 else 0
  }

  class Session {
    const deckId: Id
    var cards: seq<Card>
    var currentCardIndex: nat
    var showAnswer: bool
    var loading: bool
    var studying: bool
    var stats: SessionStats

    /** The position is inside a non-empty queue, and no more answers are
        correct than were given. */
    predicate Valid()
      reads this
    {
      (|cards| > 0 ==> currentCardIndex < |cards|) && stats.correct <= stats.cardsStudied
    }

    /** The initial state: empty queue, loading, no statistics yet. */
    constructor (deckId: Id, now: Timestamp)
      ensures Valid() && this.deckId == deckId
      ensures cards == [] && currentCardIndex == 0 && !showAnswer && loading && !studying
      ensures stats == SessionStats(0, 0, now)
    {
      this.deckId := deckId;
      cards := [];
      currentCardIndex := 0;
      showAnswer := false;
      loading := true;
      studying := false;
      stats := SessionStats(0, 0, now);
    }

    /** `currentCard`: the card at the position, if any. */
    function CurrentCard(): (c: Option<Card>)
      reads this
      ensures c.Some? <==> currentCardIndex < |cards|
      ensures c.Some? ==> c.value in cards
    {
      if currentCardIndex < |cards| then Some(cards[currentCardIndex]) else None
    }

    function Progress(): real
      reads this
    {
      CalculateProgress(currentCardIndex, |cards|)
    }

    predicate HasCards()
      reads this
    {
      |cards| > 0
    }

    /** In a valid session with cards there is a current card and progress
        lies in [0, 100). */
    lemma CurrentCardExists()
      requires Valid() && HasCards()
      ensures CurrentCard().Some? && 0.0 <= Progress() < 100.0
    {
      ProgressBounds(currentCardIndex, |cards|);
    }

    /** `loadStudyCards`: fetch new and due cards of the deck; queue the due
        ones first. A non-empty queue starts from its first card with the
        answer hidden; a failed fetch leaves the queue as it was. */
    method LoadStudyCards(db: Database.MnemozaDatabase, now: Timestamp)
      requires Valid()
      modifies this
      ensures Valid() && !loading
      ensures studying == old(studying) && stats == old(stats)
      ensures !db.initialized ==> cards == old(cards) && currentCardIndex == old(currentCardIndex) && showAnswer == old(showAnswer)
      ensures db.initialized ==> cards == StudyQueue(db.cards, deckId, now)
      ensures db.initialized && cards != [] ==> currentCardIndex == 0 && !showAnswer
      ensures db.initialized && cards == [] ==> currentCardIndex == old(currentCardIndex) && showAnswer == old(showAnswer)
    {
      var newCards := db.GetNewCards(Some(deckId), NEW_CARDS_PER_SESSION);
      var dueCards := db.GetDueCards(Some(deckId), now);
      if newCards.Err? || dueCards.Err? {
        loading := false;
        return;
      }
      var studyCards := dueCards.value + newCards.value;
      cards := studyCards;
      if |studyCards| == 0 {
        loading := false;
        return;
      }
      currentCardIndex := 0;
      showAnswer := false;
      loading := false;
    }

    /** `handleReview`: ignored while a review is in progress or the queue is
        empty; otherwise reschedule the current card and store it. On success
        count the answer and move to the next card, or report the session
        complete at the last one; on a store failure report the error and
        change nothing else. The guard is released in every case. */
    method HandleReview(db: Database.MnemozaDatabase, result: ReviewResult, now: Timestamp) returns (outcome: Option<ReviewOutcome>)
      requires Valid() && db.Valid()
      modifies this, db
      ensures Valid() && db.Valid()
      ensures cards == old(cards) && loading == old(loading)
      ensures old(studying) || old(|cards|) == 0 ==>
        outcome.None? && studying == old(studying) && stats == old(stats)
        && currentCardIndex == old(currentCardIndex) && showAnswer == old(showAnswer)
        && db.State() == old(db.State())
      ensures !old(studying) && old(|cards|) > 0 ==> outcome.Some? && !studying
      ensures !old(studying) && old(|cards|) > 0 && !db.initialized ==>
        outcome == Some(ReviewOutcome(false, Some(Database.NotInitialized)))
        && stats == old(stats) && currentCardIndex == old(currentCardIndex) && showAnswer == old(showAnswer)
        && db.State() == old(db.State())
      ensures !old(studying) && old(|cards|) > 0 && db.initialized ==>
        && db.State() == Database.PutCard(old(db.State()),
             Scheduler.UpdateCard(old(cards[currentCardIndex]), result, now).(updatedAt := now))
        && stats == old(stats).(cardsStudied := old(stats.cardsStudied) + 1,
                                correct := old(stats.correct) + Score(result))
        && (old(currentCardIndex) + 1 < |cards| ==>
              outcome == Some(ReviewOutcome(false, None)) && currentCardIndex == old(currentCardIndex) + 1 && !showAnswer)
        && (old(currentCardIndex) + 1 >= |cards| ==>
              outcome == Some(ReviewOutcome(true, None)) && currentCardIndex == old(currentCardIndex)
              && showAnswer == old(showAnswer))
    {
      if studying || |cards| == 0 {
        return None;
      }
      studying := true;
      var currentCard := cards[currentCardIndex];
      var updatedCard := Scheduler.UpdateCard(currentCard, result, now);
      var stored := db.UpdateCard(updatedCard, now);
      if stored.Err? {
        studying := false;
        return Some(ReviewOutcome(false, Some(stored.error)));
      }
      stats := stats.(cardsStudied := stats.cardsStudied + 1, correct := stats.correct + Score(result));
      var nextIndex := currentCardIndex + 1;
      if nextIndex >= |cards| {
        studying := false;
        return Some(ReviewOutcome(true, None));
      }
      currentCardIndex := nextIndex;
      showAnswer := false;
      studying := false;
      return Some(ReviewOutcome(false, None));
    }

    /** `showCardAnswer`: reveal the answer; nothing else changes. */
    method ShowCardAnswer()
      modifies this
      ensures showAnswer
      ensures cards == old(cards) && currentCardIndex == old(currentCardIndex) && loading == old(loading)
      ensures studying == old(studying) && stats == old(stats)
    {
      showAnswer := true;
    }
  }
}
