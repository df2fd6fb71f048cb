/** The card entity (`cardUtils` and `useCardModel`): content validation,
    the status badge, the "next review" label, the search filter, and the
    per-deck card list with its counts, kept in step with the store. */
module CardModel {
  import opened Wrappers
  import opened CardTypes
  import opened Numbers
  import opened Text
  import Seqs
  import Keyed
  import Scheduler
  import Database

  /** The longest front or back the editor accepts, after trimming. */
  const MAX_SIDE_LENGTH: int := 1000

  /** The three refusals of `validateCardContent`. */
  datatype ContentError = BothRequired | FrontTooLong | BackTooLong

  /** The message shown for each refusal. */
  function Message(e: ContentError): string
  {
    match e
    case BothRequired => "Оба поля должны быть заполнены"
    case FrontTooLong => "Лицевая сторона слишком длинная (максимум 1000 символов)"
    case BackTooLong => "Обратная сторона слишком длинная (максимум 1000 символов)"
  }

  /** `{ isValid, error? }`. */
  datatype Validation = Accepted | Rejected(error: ContentError)

  /** `validateCardContent`: both trimmed sides must be non-empty (checked
      first), then the front, then the back, must fit in 1000 UTF-16 code
      units. */
  function ValidateCardContent(front: string, back: string): (v: Validation)
    ensures v.Accepted? <==>
      && 1 <= Utf16Length(Trim(front)) <= MAX_SIDE_LENGTH
      && 1 <= Utf16Length(Trim(back)) <= MAX_SIDE_LENGTH
    ensures Trim(front) == [] || Trim(back) == [] ==> v == Rejected(BothRequired)
    ensures Trim(front) != [] && Trim(back) != [] && Utf16Length(Trim(front)) > MAX_SIDE_LENGTH
            ==> v == Rejected(FrontTooLong)
    ensures Trim(front) != [] && Utf16Length(Trim(front)) <= MAX_SIDE_LENGTH
            && Trim(back) != [] && Utf16Length(Trim(back)) > MAX_SIDE_LENGTH
            ==> v == Rejected(BackTooLong)
  {
    var trimmedFront := Trim(front);
    var trimmedBack := Trim(back);
    if trimmedFront == [] || trimmedBack == [] then Rejected(BothRequired)
    else if Utf16Length(trimmedFront) > MAX_SIDE_LENGTH then Rejected(FrontTooLong)
    else if Utf16Length(trimmedBack) > MAX_SIDE_LENGTH then Rejected(BackTooLong)
    else Accepted
  }

  /** A side made of white space only is rejected, whatever the other side;
      padding with white space never changes the verdict. */
  lemma BlankSideRejected(front: string, back: string)
    requires (forall k :: 0 <= k < |front| ==> IsWhitespace(front[k]))
          || (forall k :: 0 <= k < |back| ==> IsWhitespace(back[k]))
    ensures ValidateCardContent(front, back) == Rejected(BothRequired)
  {
    BlankIffAllWhitespace(front);
    BlankIffAllWhitespace(back);
  }

  /** The badge of a card: icon, label and its colours. */
  datatype Badge = Badge(icon: string, text: string, bgColor: string, textColor: string)

  function BadgeOf(status: Status): Badge
  {
    match status
    case New => Badge("⭐", "Новая", "bg-blue-100", "text-blue-800")
    case Due => Badge("🔄", "К повторению", "bg-red-100", "text-red-800")
    case Learned => Badge("✅", "Изучена", "bg-green-100", "text-green-800")
  }

  /** `getCardStatus`: "Новая" for a learning card whatever its date, else
      "К повторению" once the review date has come, else "Изучена". */
  function GetCardStatus(card: Card, now: Timestamp): (b: Badge)
    ensures card.isNew ==> b.text == "Новая"
    ensures !card.isNew && card.nextReviewDate <= now ==> b.text == "К повторению"
    ensures !card.isNew && card.nextReviewDate > now ==> b.text == "Изучена"
  {
    BadgeOf(StatusOf(card, now))
  }

  /** The three badges are told apart by their label, so the label alone
      gives back the bucket of `getCardStats`. */
  lemma BadgeIdentifiesStatus(a: Card, b: Card, now: Timestamp)
    ensures GetCardStatus(a, now).text == GetCardStatus(b, now).text <==> StatusOf(a, now) == StatusOf(b, now)
  {
  }

  /** `getNextReviewText`: the review date in whole days from now, rounded up. */
  function GetNextReviewText(date: Timestamp, now: Timestamp): (s: string)
    ensures date <= now ==> s == "Сегодня"
    ensures now < date <= now + DAY_MS ==> s == "Завтра"
    ensures date > now + DAY_MS ==>
      exists d: nat :: 2 <= d && (d - 1) * DAY_MS < date - now <= d * DAY_MS && s == NatToString(d) + " дн."
  {
    var diffDays := CeilDiv(date - now, DAY_MS);
    if diffDays <= 0 then "Сегодня"
    else if diffDays == 1 then "Завтра"
    else IntToString(diffDays) + " дн."
  }

  /** The search match of `filterCards`: the lowercased term occurs in the
      lowercased front or back. */
  predicate Matches(card: Card, term: string)
  {
    Contains(ToLower(card.front), ToLower(term)) || Contains(ToLower(card.back), ToLower(term))
  }

  function MatchesTerm(term: string): Card -> bool
  {
    (c: Card) => Matches(c, term)
  }

  /** `filterCards`: a blank term keeps the list; otherwise the matching
      cards in their order. The term itself is matched untrimmed. */
  function FilterCards(cards: seq<Card>, searchTerm: string): (r: seq<Card>)
    ensures Trim(searchTerm) == [] ==> r == cards
    ensures Seqs.SubseqOf(r, cards)
    ensures Trim(searchTerm) != [] ==> forall c :: c in r <==> c in cards && Matches(c, searchTerm)
  {
    if Trim(searchTerm) == [] then
      Seqs.SubseqOfSelf(cards);
      cards
    else
      var r := Seqs.Filter(cards, MatchesTerm(searchTerm));
      Seqs.FilterSubseq(cards, MatchesTerm(searchTerm));
      assert forall c :: c in r <==> c in cards && Matches(c, searchTerm) by {
        forall c ensures c in r <==> c in cards && Matches(c, searchTerm) {
          if c in cards && Matches(c, searchTerm) {
            var k :| 0 <= k < |cards| && cards[k] == c;
          }
          if c in r {
            var k :| 0 <= k < |r| && r[k] == c;
          }
        }
      }
      r
  }

  /** Why `createCard` fails: the validation message, or the store's error. */
  datatype CreateError = InvalidContent(reason: ContentError) | StoreError(cause: Database.DbError)

  /** The card list of one deck (`useCardModel`). */
  class CardList {
    const deckId: Id
    var cards: seq<Card>
    var stats: Database.CardCount
    var loading: bool

    constructor (deckId: Id)
      ensures this.deckId == deckId && cards == [] && stats == Database.CardCount(0, 0, 0) && loading
    {
      this.deckId := deckId;
      cards := [];
      stats := Database.CardCount(0, 0, 0);
      loading := true;
    }

    /** The list shows exactly the deck's cards of `db` and their counts. */
    predicate InStep(db: Database.MnemozaDatabase, now: Timestamp)
      reads this, db
    {
      cards == Database.CardsOfDeck(db.cards, deckId) && stats == Database.CountCards(db.cards, Some(deckId), now)
    }

    /** `loadCards`: fetch the deck's cards and counts together; a failure
        of either keeps the old list. Loading is over in both cases. */
    method LoadCards(db: Database.MnemozaDatabase, now: Timestamp)
      modifies this
      ensures !loading
      ensures db.initialized ==> InStep(db, now)
      ensures !db.initialized ==> cards == old(cards) && stats == old(stats)
    {
      var deckCards := db.GetCardsByDeck(deckId);
      var deckStats := db.GetCardCount(Some(deckId), now);
      if deckCards.Ok? && deckStats.Ok? {
        cards := deckCards.value;
        stats := deckStats.value;
      }
      loading := false;
    }

    /** `createCard`: invalid content is refused before the store is touched;
        otherwise a fresh card with the trimmed sides is stored and the list
        reloaded. `draftId` is the id the scheduler's factory draws, which
        the store replaces. */
    method CreateCard(db: Database.MnemozaDatabase, front: string, back: string, draftId: Id, now: Timestamp)
      returns (r: Result<Card, CreateError>)
      requires db.Valid()
      modifies this, db
      ensures db.Valid() && db.initialized == old(db.initialized)
      ensures ValidateCardContent(front, back).Rejected? ==>
        r == Err(InvalidContent(ValidateCardContent(front, back).error))
        && db.State() == old(db.State()) && cards == old(cards) && stats == old(stats) && loading == old(loading)
      ensures ValidateCardContent(front, back).Accepted? && !db.initialized ==>
        && r == Err(StoreError(Database.NotInitialized)) && db.State() == old(db.State())
        && cards == old(cards) && stats == old(stats) && loading == old(loading)
      ensures ValidateCardContent(front, back).Accepted? && db.initialized ==>
        var draft := Scheduler.CreateNewCard(draftId, Trim(front), Trim(back), deckId, now);
        && r == Ok(Database.NewCard(old(db.State()), draft, now))
        && db.State() == Database.AddCard(old(db.State()), draft, now)
        && r.value.front == Trim(front) && r.value.back == Trim(back) && r.value.deckId == deckId
        && r.value in cards && InStep(db, now) && !loading
    {
      var validation := ValidateCardContent(front, back);
      if validation.Rejected? {
        return Err(InvalidContent(validation.error));
      }
      var draft := Scheduler.CreateNewCard(draftId, Trim(front), Trim(back), deckId, now);
      var created := db.CreateCard(draft, now);
      if created.Err? {
        return Err(StoreError(created.error));
      }
      Database.AddCardSpec(old(db.State()), draft, now);
      CreatedCardListed(db.cards, created.value);
      LoadCards(db, now);
      return Ok(created.value);
    }

    /** `updateCard`: store the card (stamped `now`) and reload the list. */
    method UpdateCard(db: Database.MnemozaDatabase, card: Card, now: Timestamp) returns (r: Result<(), Database.DbError>)
      requires db.Valid()
      modifies this, db
      ensures db.Valid() && db.initialized == old(db.initialized)
      ensures !db.initialized ==>
        && r == Err(Database.NotInitialized) && db.State() == old(db.State())
        && cards == old(cards) && stats == old(stats) && loading == old(loading)
      ensures db.initialized ==>
        && r == Ok(()) && db.State() == Database.PutCard(old(db.State()), card.(updatedAt := now))
        && InStep(db, now) && !loading
    {
      r := db.UpdateCard(card, now);
      if r.Err? {
        return;
      }
      LoadCards(db, now);
    }

    /** `deleteCard`: remove the card from the store and reload the list. */
    method DeleteCard(db: Database.MnemozaDatabase, cardId: Id, now: Timestamp) returns (r: Result<(), Database.DbError>)
      requires db.Valid()
      modifies this, db
      ensures db.Valid() && db.initialized == old(db.initialized)
      ensures !db.initialized ==>
        && r == Err(Database.NotInitialized) && db.State() == old(db.State())
        && cards == old(cards) && stats == old(stats) && loading == old(loading)
      ensures db.initialized ==>
        && r == Ok(()) && db.State() == Database.DropCard(old(db.State()), cardId)
        && InStep(db, now) && (forall c :: c in cards ==> c.id != cardId) && !loading
    {
      r := db.DeleteCard(cardId);
      if r.Err? {
        return;
      }
      Database.DropCardSpec(old(db.State()), cardId);
      LoadCards(db, now);
      DeletedCardUnlisted(db.cards, deckId, cardId);
    }
  }

  /** A stored card of the deck is on the deck's list. */
  lemma CreatedCardListed(cards: seq<Card>, card: Card)
    requires card in cards
    ensures card in Database.CardsOfDeck(cards, card.deckId)
  {
    var k :| 0 <= k < |cards| && cards[k] == card;
  }

  /** A card id absent from the store is absent from every deck's list. */
  lemma DeletedCardUnlisted(cards: seq<Card>, deckId: Id, cardId: Id)
    requires !Keyed.HasKey(cards, cardId, Database.CardKey)
    ensures forall c :: c in Database.CardsOfDeck(cards, deckId) ==> c.id != cardId
  {
  }
}
