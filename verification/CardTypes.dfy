/** The records of the application: a card with its scheduling state, a deck,
    and the four answers a learner can give. Timestamps are milliseconds
    since the epoch; ids come from the store's fresh-id supply. */
module CardTypes {
  import opened Wrappers
  import Seqs

  type Id = nat
  type Timestamp = int

  const MINUTE_MS: int := 60 * 1000
  const HOUR_MS: int := 60 * MINUTE_MS
  const DAY_MS: int := 24 * HOUR_MS

  datatype Card = Card(
    id: Id,
    front: string,
    back: string,
    deckId: Id,
    interval: real,       // days until the next review
    repetitions: int,     // successful reviews in a row
    easeFactor: real,     // growth factor of the interval, starts at 2.5
    nextReviewDate: Timestamp,
    createdAt: Timestamp,
    updatedAt: Timestamp,
    isNew: bool           // still in the learning phase
  )

  datatype Deck = Deck(
    id: Id,
    name: string,
    description: Option<string>,
    createdAt: Timestamp,
    updatedAt: Timestamp
  )

  datatype ReviewResult = Again | Hard | Good | Easy

  /** The three buckets the application sorts cards into. */
  datatype Status = New | Due | Learned

  /** The classification shared by the statistics, the card badge and the
      cards table: a new card is new whatever its date; otherwise it is due
      once its review date has come. */
  function StatusOf(card: Card, now: Timestamp): Status
  {
    if card.isNew then New
    else if card.nextReviewDate <= now then Due
    else Learned
  }

  /** The cards of `cards` in bucket `status`. */
  function CountStatus(cards: seq<Card>, status: Status, now: Timestamp): nat
  {
    |Seqs.Filter(cards, c => StatusOf(c, now) == status)|
  }

  /** Every card lands in exactly one bucket. */
  lemma {:induction false} StatusPartition(cards: seq<Card>, now: Timestamp)
    ensures CountStatus(cards, New, now) + CountStatus(cards, Due, now)
            + CountStatus(cards, Learned, now) == |cards|
  {
    if cards != [] {
      StatusPartition(cards[..|cards| - 1], now);
    }
  }

  /** Counting one more card adds it to its own bucket only. */
  lemma CountStatusSnoc(cards: seq<Card>, i: nat, status: Status, now: Timestamp)
    requires i < |cards|
    ensures CountStatus(cards[..i + 1], status, now)
            == CountStatus(cards[..i], status, now) + (if StatusOf(cards[i], now) == status then 1 else 0)
  {
    Seqs.FilterSnoc(cards, i, c => StatusOf(c, now) == status);
  }
}
