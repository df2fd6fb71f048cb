/** The card store (`MnemozaDatabase`): two object stores, `decks` and
    `cards`, keyed by id and iterated in key order, behind a handle that
    must be opened with `init` before any other operation. Ids come from a
    fresh-id supply (`nextId`) standing for `generateUUID`; the clock is the
    parameter `now`. */
module Database {
  import opened Wrappers
  import opened CardTypes
  import Seqs
  import Keyed

  datatype DbError = NotInitialized | CardNotFound(id: Id)

  function CardKey(c: Card): nat { c.id }
  function DeckKey(d: Deck): nat { d.id }

  /** The contents of both object stores and the next fresh id. */
  datatype Store = Store(decks: seq<Deck>, cards: seq<Card>, nextId: Id)

  /** Each store is in key order with every key once, and the supply has
      not yet handed out any id in use. */
  predicate StoreValid(st: Store)
  {
    && Keyed.Ascending(st.decks, DeckKey) && Keyed.Ascending(st.cards, CardKey)
    && Keyed.KeysBelow(st.decks, DeckKey, st.nextId) && Keyed.KeysBelow(st.cards, CardKey, st.nextId)
  }

  // ---------------------------------------------------------------- queries

  /** The optional deck filter of the queries: no deck id matches every card. */
  predicate InDeck(c: Card, deckId: Option<Id>)
  {
    deckId.None? || c.deckId == deckId.value
  }

  predicate IsNewIn(c: Card, deckId: Option<Id>)
  {
    c.isNew && InDeck(c, deckId)
  }

  predicate IsDueIn(c: Card, deckId: Option<Id>, now: Timestamp)
  {
    !c.isNew && c.nextReviewDate <= now && InDeck(c, deckId)
  }

  /** The `deckId` index: the cards of one deck, in key order. */
  function CardsOfDeck(cards: seq<Card>, deckId: Id): seq<Card>
  {
    Seqs.Filter(cards, (c: Card) => c.deckId == deckId)
  }

  /** The cards of every other deck, in key order. */
  function CardsNotOfDeck(cards: seq<Card>, deckId: Id): seq<Card>
  {
    Seqs.Filter(cards, (c: Card) => c.deckId != deckId)
  }

  function NewMatches(cards: seq<Card>, deckId: Option<Id>): seq<Card>
  {
    Seqs.Filter(cards, c => IsNewIn(c, deckId))
  }

  function DueMatches(cards: seq<Card>, deckId: Option<Id>, now: Timestamp): seq<Card>
  {
    Seqs.Filter(cards, c => IsDueIn(c, deckId, now))
  }

  /** What `getNewCards` returns: the new cards of the deck in store order,
      cut off after `limit`. */
  function NewCardsOf(cards: seq<Card>, deckId: Option<Id>, limit: int): seq<Card>
  {
    Seqs.Take(NewMatches(cards, deckId), limit)
  }

  /** `getNewCards` returns no more than `limit` cards, each new and of the
      deck; they are the first matching cards in store order, none skipped,
      and all of them when fewer than `limit` match. */
  lemma NewCardsOfSpec(cards: seq<Card>, deckId: Option<Id>, limit: int)
    ensures var r := NewCardsOf(cards, deckId, limit);
      && |r| <= (if limit <= 0 then 0 else limit)
      && (forall k :: 0 <= k < |r| ==> r[k] in cards && IsNewIn(r[k], deckId))
      && r == NewMatches(cards, deckId)[..|r|]
      && (|r| < limit ==> r == NewMatches(cards, deckId))
  {
  }

  /** Where the `getNewCards` scan stops (the store is exhausted, or `limit`
      cards are found) it has collected exactly `NewCardsOf`. */
  lemma NewCardsCutOff(cards: seq<Card>, i: nat, deckId: Option<Id>, limit: int)
    requires i <= |cards|
    requires i == |cards| || |NewMatches(cards[..i], deckId)| >= limit
    requires limit <= 0 ==> NewMatches(cards[..i], deckId) == []
    requires 0 < limit ==> |NewMatches(cards[..i], deckId)| <= limit
    ensures NewMatches(cards[..i], deckId) == NewCardsOf(cards, deckId, limit)
  {
    var found := NewMatches(cards[..i], deckId);
    assert cards == cards[..i] + cards[i..];
    Seqs.FilterAppend(cards[..i], cards[i..], c => IsNewIn(c, deckId));
    assert NewMatches(cards, deckId) == found + NewMatches(cards[i..], deckId);
    if 0 < limit && i < |cards| {
      assert NewMatches(cards, deckId)[..limit] == found;
    }
  }

  predicate SortedByDate(s: seq<Card>)
  {
    forall i, j :: 0 <= i < j < |s| ==> s[i].nextReviewDate <= s[j].nextReviewDate
  }

  function InsertByDate(x: Card, s: seq<Card>): (r: seq<Card>)
    ensures multiset(r) == multiset(s) + multiset{x}
  {
    if s == [] || x.nextReviewDate <= s[0].nextReviewDate then [x] + s
    else
      assert s == [s[0]] + s[1..];
      [s[0]] + InsertByDate(x, s[1..])
  }

  /** Inserting into a sorted list keeps it sorted. */
  lemma {:induction false} InsertSorted(x: Card, s: seq<Card>)
    requires SortedByDate(s)
    ensures SortedByDate(InsertByDate(x, s))
    ensures InsertByDate(x, s)[0] == x || (s != [] && InsertByDate(x, s)[0] == s[0])
  {
    if s != [] && x.nextReviewDate > s[0].nextReviewDate {
      var rest := InsertByDate(x, s[1..]);
      InsertSorted(x, s[1..]);
      assert |rest| > 0 by {
        assert x in multiset(rest);
      }
      assert s[0].nextReviewDate <= rest[0].nextReviewDate;
      assert InsertByDate(x, s) == [s[0]] + rest;
    }
  }

  /** `cards.sort((a, b) => a.nextReviewDate - b.nextReviewDate)`: the same
      cards, in non-decreasing order of review date. */
  function SortByDate(s: seq<Card>): (r: seq<Card>)
    ensures SortedByDate(r)
    ensures multiset(r) == multiset(s)
  {
    if s == [] then []
    else
      assert s == [s[0]] + s[1..];
      var rest := SortByDate(s[1..]);
      InsertSorted(s[0], rest);
      InsertByDate(s[0], rest)
  }

  /** What `getDueCards` returns. */
  function DueCardsOf(cards: seq<Card>, deckId: Option<Id>, now: Timestamp): seq<Card>
  {
    SortByDate(DueMatches(cards, deckId, now))
  }

  /** `getDueCards` returns exactly the store's cards that have left
      learning, are due at `now` and belong to the deck, each as often as
      it is stored, earliest review date first. */
  lemma DueCardsOfSpec(cards: seq<Card>, deckId: Option<Id>, now: Timestamp)
    ensures var r := DueCardsOf(cards, deckId, now);
      && SortedByDate(r)
      && multiset(r) == multiset(DueMatches(cards, deckId, now))
      && (forall c :: c in r <==> c in cards && IsDueIn(c, deckId, now))
  {
    var r := DueCardsOf(cards, deckId, now);
    var m := DueMatches(cards, deckId, now);
    forall c ensures c in r <==> c in cards && IsDueIn(c, deckId, now) {
      assert c in r <==> c in multiset(r);
      assert c in m <==> c in multiset(m);
      if c in cards && IsDueIn(c, deckId, now) {
        var k :| 0 <= k < |cards| && cards[k] == c;
      }
    }
  }

  /** The counters of `getCardCount`. */
  datatype CardCount = CardCount(total: nat, newCount: nat, due: nat)

  function CountCards(cards: seq<Card>, deckId: Option<Id>, now: Timestamp): CardCount
  {
    CardCount(|Seqs.Filter(cards, c => InDeck(c, deckId))|,
              |NewMatches(cards, deckId)|,
              |DueMatches(cards, deckId, now)|)
  }

  /** One more card raises `total` when it is of the deck, and then exactly
      one of `new` (a learning card, whatever its date) or `due` (a review
      card whose date has come), or neither. */
  lemma CountCardsSnoc(cards: seq<Card>, i: nat, deckId: Option<Id>, now: Timestamp)
    requires i < |cards|
    ensures var before := CountCards(cards[..i], deckId, now);
            var after := CountCards(cards[..i + 1], deckId, now);
            var c := cards[i];
      && after.total == before.total + (if InDeck(c, deckId) then 1 else 0)
      && after.newCount == before.newCount + (if InDeck(c, deckId) && c.isNew then 1 else 0)
      && after.due == before.due + (if InDeck(c, deckId) && !c.isNew && c.nextReviewDate <= now then 1 else 0)
  {
    Seqs.FilterSnoc(cards, i, c => InDeck(c, deckId));
    Seqs.FilterSnoc(cards, i, c => IsNewIn(c, deckId));
    Seqs.FilterSnoc(cards, i, c => IsDueIn(c, deckId, now));
  }

  /** `new + due <= total`: no card is counted twice. */
  lemma {:induction false} CountCardsBound(cards: seq<Card>, deckId: Option<Id>, now: Timestamp)
    ensures var n := CountCards(cards, deckId, now); n.newCount + n.due <= n.total
  {
    if cards != [] {
      var i := |cards| - 1;
      CountCardsBound(cards[..i], deckId, now);
      CountCardsSnoc(cards, i, deckId, now);
      assert cards[..i + 1] == cards;
    }
  }

  // ------------------------------------------------------------ transitions

  /** `Partial<MnemozaCard>`: each field present or absent. */
  datatype CardPatch = CardPatch(
    front: Option<string>,
    back: Option<string>,
    deckId: Option<Id>,
    interval: Option<real>,
    repetitions: Option<int>,
    easeFactor: Option<real>,
    nextReviewDate: Option<Timestamp>,
    createdAt: Option<Timestamp>,
    updatedAt: Option<Timestamp>,
    isNew: Option<bool>,
    id: Option<Id>
  )

  function Pick<T>(o: Option<T>, d: T): T
  {
    if o.Some? then o.value else d
  }

  /** `{ ...existing, ...fields, id: cardId, updatedAt: now }`. */
  function Merge(existing: Card, patch: CardPatch, cardId: Id, now: Timestamp): (r: Card)
    ensures r.id == cardId && r.updatedAt == now
  {
    Card(cardId, Pick(patch.front, existing.front), Pick(patch.back, existing.back),
         Pick(patch.deckId, existing.deckId), Pick(patch.interval, existing.interval),
         Pick(patch.repetitions, existing.repetitions), Pick(patch.easeFactor, existing.easeFactor),
         Pick(patch.nextReviewDate, existing.nextReviewDate), Pick(patch.createdAt, existing.createdAt),
         now, Pick(patch.isNew, existing.isNew))
  }

  /** A field given in the patch wins, an absent one keeps the stored value;
      the id and `updatedAt` are forced whatever the patch says. */
  lemma MergeSpec(existing: Card, patch: CardPatch, cardId: Id, now: Timestamp)
    ensures var r := Merge(existing, patch, cardId, now);
      && (patch.front.Some? ==> r.front == patch.front.value) && (patch.front.None? ==> r.front == existing.front)
      && (patch.back.Some? ==> r.back == patch.back.value) && (patch.back.None? ==> r.back == existing.back)
      && (patch.deckId.Some? ==> r.deckId == patch.deckId.value) && (patch.deckId.None? ==> r.deckId == existing.deckId)
      && (patch.interval.Some? ==> r.interval == patch.interval.value) && (patch.interval.None? ==> r.interval == existing.interval)
      && (patch.repetitions.Some? ==> r.repetitions == patch.repetitions.value)
      && (patch.repetitions.None? ==> r.repetitions == existing.repetitions)
      && (patch.easeFactor.Some? ==> r.easeFactor == patch.easeFactor.value)
      && (patch.easeFactor.None? ==> r.easeFactor == existing.easeFactor)
      && (patch.nextReviewDate.Some? ==> r.nextReviewDate == patch.nextReviewDate.value)
      && (patch.nextReviewDate.None? ==> r.nextReviewDate == existing.nextReviewDate)
      && (patch.createdAt.Some? ==> r.createdAt == patch.createdAt.value)
      && (patch.createdAt.None? ==> r.createdAt == existing.createdAt)
      && (patch.isNew.Some? ==> r.isNew == patch.isNew.value) && (patch.isNew.None? ==> r.isNew == existing.isNew)
      && (patch == CardPatch(None, None, None, None, None, None, None, None, None, None, None) && cardId == existing.id
          ==> r == existing.(updatedAt := now))
  {
  }

  /** `createDeck`: the deck with the next fresh id, both timestamps `now`. */
  function NewDeck(st: Store, name: string, description: Option<string>, now: Timestamp): Deck
  {
    Deck(st.nextId, name, description, now, now)
  }

  function AddDeck(st: Store, name: string, description: Option<string>, now: Timestamp): Store
  {
    st.(decks := st.decks + [NewDeck(st, name, description, now)], nextId := st.nextId + 1)
  }

  /** `createCard`: the record with the next fresh id, `createdAt = updatedAt = now`. */
  function NewCard(st: Store, draft: Card, now: Timestamp): Card
  {
    draft.(id := st.nextId, createdAt := now, updatedAt := now)
  }

  function AddCard(st: Store, draft: Card, now: Timestamp): Store
  {
    st.(cards := st.cards + [NewCard(st, draft, now)], nextId := st.nextId + 1)
  }

  function MaxId(a: Id, b: Id): Id
  {
    if a >= b then a else b
  }

  /** A generated UUID never equals an id written anywhere else, a backup
      file included. With counter ids this is the supply moved past `bound`,
      the ids a file names; nothing stored changes. */
  function SupplyPast(st: Store, bound: Id): (r: Store)
    ensures r.decks == st.decks && r.cards == st.cards
    ensures st.nextId <= r.nextId && bound <= r.nextId
    ensures StoreValid(st) ==> StoreValid(r)
  {
    st.(nextId := MaxId(st.nextId, bound))
  }

  /** `put` of a deck or a card; the supply moves past the key so that it
      never hands out an id in use. */
  function PutDeck(st: Store, deck: Deck): Store
  {
    st.(decks := Keyed.Upsert(st.decks, deck, DeckKey), nextId := MaxId(st.nextId, deck.id + 1))
  }

  function PutCard(st: Store, card: Card): Store
  {
    st.(cards := Keyed.Upsert(st.cards, card, CardKey), nextId := MaxId(st.nextId, card.id + 1))
  }

  /** `updateCardFields`. */
  function PatchCard(st: Store, cardId: Id, patch: CardPatch, now: Timestamp): Result<Store, DbError>
  {
    match Keyed.Find(st.cards, cardId, CardKey)
    case None => Err(CardNotFound(cardId))
    case Some(existing) => Ok(PutCard(st, Merge(existing, patch, cardId, now)))
  }

  /** `deleteCard`. */
  function DropCard(st: Store, id: Id): Store
  {
    st.(cards := Keyed.Remove(st.cards, id, CardKey))
  }

  /** `deleteDeck`: the deck and every card of it. */
  function DropDeck(st: Store, id: Id): Store
  {
    st.(decks := Keyed.Remove(st.decks, id, DeckKey), cards := CardsNotOfDeck(st.cards, id))
  }

  /** A created deck gets an id no deck or card has; it is found under that
      id, every other deck is as before, and the cards are untouched. */
  lemma AddDeckSpec(st: Store, name: string, description: Option<string>, now: Timestamp)
    requires StoreValid(st)
    ensures var st' := AddDeck(st, name, description, now);
            var d := NewDeck(st, name, description, now);
      && StoreValid(st') && st'.cards == st.cards
      && !Keyed.HasKey(st.decks, d.id, DeckKey) && !Keyed.HasKey(st.cards, d.id, CardKey)
      && d.name == name && d.description == description && d.createdAt == now && d.updatedAt == now
      && (forall k: nat :: Keyed.Find(st'.decks, k, DeckKey) == if k == d.id then Some(d) else Keyed.Find(st.decks, k, DeckKey))
  {
    var d := NewDeck(st, name, description, now);
    Keyed.AppendFresh(st.decks, d, DeckKey);
    Keyed.AppendAscending(st.decks, d, DeckKey);
    forall k: nat ensures Keyed.Find(st.decks + [d], k, DeckKey) == if k == d.id then Some(d) else Keyed.Find(st.decks, k, DeckKey) {
      Keyed.FindUpsert(st.decks, d, k, DeckKey);
    }
  }

  /** A created card gets an id no deck or card has and keeps every other
      field of the draft; it is found under that id, every other card is as
      before, and the decks are untouched. */
  lemma AddCardSpec(st: Store, draft: Card, now: Timestamp)
    requires StoreValid(st)
    ensures var st' := AddCard(st, draft, now);
            var c := NewCard(st, draft, now);
      && StoreValid(st') && st'.decks == st.decks
      && !Keyed.HasKey(st.decks, c.id, DeckKey) && !Keyed.HasKey(st.cards, c.id, CardKey)
      && c.createdAt == now && c.updatedAt == now
      && c.(id := draft.id, createdAt := draft.createdAt, updatedAt := draft.updatedAt) == draft
      && (forall k: nat :: Keyed.Find(st'.cards, k, CardKey) == if k == c.id then Some(c) else Keyed.Find(st.cards, k, CardKey))
  {
    var c := NewCard(st, draft, now);
    Keyed.AppendFresh(st.cards, c, CardKey);
    Keyed.AppendAscending(st.cards, c, CardKey);
    forall k: nat ensures Keyed.Find(st.cards + [c], k, CardKey) == if k == c.id then Some(c) else Keyed.Find(st.cards, k, CardKey) {
      Keyed.FindUpsert(st.cards, c, k, CardKey);
    }
  }

  lemma PutCardValid(st: Store, card: Card)
    requires StoreValid(st)
    ensures StoreValid(PutCard(st, card))
  {
    Keyed.UpsertAscending(st.cards, card, CardKey);
    Keyed.UpsertKeysBelow(st.cards, card, CardKey, PutCard(st, card).nextId);
  }

  lemma PutDeckValid(st: Store, deck: Deck)
    requires StoreValid(st)
    ensures StoreValid(PutDeck(st, deck))
  {
    Keyed.UpsertAscending(st.decks, deck, DeckKey);
    Keyed.UpsertKeysBelow(st.decks, deck, DeckKey, PutDeck(st, deck).nextId);
  }

  lemma DropDeckValid(st: Store, id: Id)
    requires StoreValid(st)
    ensures StoreValid(DropDeck(st, id))
  {
    Keyed.RemoveAscending(st.decks, id, DeckKey);
    Keyed.FilterAscending(st.cards, (c: Card) => c.deckId != id, CardKey);
  }

  lemma DropCardValid(st: Store, id: Id)
    requires StoreValid(st)
    ensures StoreValid(DropCard(st, id))
  {
    Keyed.RemoveAscending(st.cards, id, CardKey);
  }

  /** A put stores the card under its id, leaves every other id as it was,
      and keeps the store valid. */
  lemma PutCardSpec(st: Store, card: Card)
    requires StoreValid(st)
    ensures var st' := PutCard(st, card);
      && StoreValid(st') && st'.decks == st.decks
      && (forall k: nat :: Keyed.Find(st'.cards, k, CardKey) == if k == card.id then Some(card) else Keyed.Find(st.cards, k, CardKey))
  {
    var st' := PutCard(st, card);
    Keyed.UpsertAscending(st.cards, card, CardKey);
    Keyed.UpsertKeysBelow(st.cards, card, CardKey, PutCard(st, card).nextId);
    forall k: nat ensures Keyed.Find(st'.cards, k, CardKey) == if k == card.id then Some(card) else Keyed.Find(st.cards, k, CardKey) {
      Keyed.FindUpsert(st.cards, card, k, CardKey);
    }
  }

  lemma PutDeckSpec(st: Store, deck: Deck)
    requires StoreValid(st)
    ensures var st' := PutDeck(st, deck);
      && StoreValid(st') && st'.cards == st.cards
      && (forall k: nat :: Keyed.Find(st'.decks, k, DeckKey) == if k == deck.id then Some(deck) else Keyed.Find(st.decks, k, DeckKey))
  {
    var st' := PutDeck(st, deck);
    Keyed.UpsertAscending(st.decks, deck, DeckKey);
    Keyed.UpsertKeysBelow(st.decks, deck, DeckKey, PutDeck(st, deck).nextId);
    forall k: nat ensures Keyed.Find(st'.decks, k, DeckKey) == if k == deck.id then Some(deck) else Keyed.Find(st.decks, k, DeckKey) {
      Keyed.FindUpsert(st.decks, deck, k, DeckKey);
    }
  }

  /** `updateCardFields` fails exactly when no card has the id; otherwise
      the stored card becomes the merge, under the same id, and nothing else
      changes (not even the supply). */
  lemma PatchCardSpec(st: Store, cardId: Id, patch: CardPatch, now: Timestamp)
    requires StoreValid(st)
    ensures var r := PatchCard(st, cardId, patch, now);
      && (r == Err(CardNotFound(cardId)) <==> !Keyed.HasKey(st.cards, cardId, CardKey))
      && (r.Ok? ==>
            var existing := Keyed.Find(st.cards, cardId, CardKey).value;
            && StoreValid(r.value) && r.value.decks == st.decks && r.value.nextId == st.nextId
            && Keyed.Find(r.value.cards, cardId, CardKey) == Some(Merge(existing, patch, cardId, now))
            && (forall k: nat :: k != cardId ==> Keyed.Find(r.value.cards, k, CardKey) == Keyed.Find(st.cards, k, CardKey)))
  {
    if Keyed.HasKey(st.cards, cardId, CardKey) {
      var existing := Keyed.Find(st.cards, cardId, CardKey).value;
      var i :| 0 <= i < |st.cards| && st.cards[i] == existing;
      PutCardSpec(st, Merge(existing, patch, cardId, now));
    }
  }

  /** A deleted card is gone; every other card and every deck is as before. */
  lemma DropCardSpec(st: Store, id: Id)
    requires StoreValid(st)
    ensures var st' := DropCard(st, id);
      && StoreValid(st') && st'.decks == st.decks && Keyed.Find(st'.cards, id, CardKey) == None
      && (forall k: nat :: k != id ==> Keyed.Find(st'.cards, k, CardKey) == Keyed.Find(st.cards, k, CardKey))
  {
    Keyed.RemoveAscending(st.cards, id, CardKey);
    forall k: nat ensures Keyed.Find(Keyed.Remove(st.cards, id, CardKey), k, CardKey) == if k == id then None else Keyed.Find(st.cards, k, CardKey) {
      Keyed.FindRemove(st.cards, id, k, CardKey);
    }
  }

  /** Deleting a deck removes it and exactly its cards: no card of the deck
      is left, every card of another deck stays, in the same order, and
      every other deck is as before. */
  lemma DropDeckSpec(st: Store, id: Id)
    requires StoreValid(st)
    ensures var st' := DropDeck(st, id);
      && StoreValid(st') && Keyed.Find(st'.decks, id, DeckKey) == None
      && (forall k: nat :: k != id ==> Keyed.Find(st'.decks, k, DeckKey) == Keyed.Find(st.decks, k, DeckKey))
      && (forall c :: c in st'.cards <==> c in st.cards && c.deckId != id)
  {
    Keyed.RemoveAscending(st.decks, id, DeckKey);
    Keyed.FilterAscending(st.cards, (c: Card) => c.deckId != id, CardKey);
    forall k: nat ensures Keyed.Find(Keyed.Remove(st.decks, id, DeckKey), k, DeckKey) == if k == id then None else Keyed.Find(st.decks, k, DeckKey) {
      Keyed.FindRemove(st.decks, id, k, DeckKey);
    }
    forall c ensures c in CardsNotOfDeck(st.cards, id) <==> c in st.cards && c.deckId != id {
      if c in st.cards && c.deckId != id {
        var k :| 0 <= k < |st.cards| && st.cards[k] == c;
      }
    }
  }

  /** The ids of a list of cards. */
  function IdsOf(cs: seq<Card>): set<Id>
  {
    set c | c in cs :: c.id
  }

  function NotAmong(ids: set<Id>): Card -> bool
  {
    (c: Card) => c.id !in ids
  }

  lemma IdsOfSnoc(cs: seq<Card>, i: nat)
    requires i < |cs|
    ensures IdsOf(cs[..i + 1]) == IdsOf(cs[..i]) + {cs[i].id}
  {
    assert cs[..i + 1] == cs[..i] + [cs[i]];
  }

  /** One more delete in the cascade: the survivors are the cards whose id
      is not among the deleted ones. */
  lemma RemoveAmong(cards: seq<Card>, ids: set<Id>, k: Id)
    ensures Keyed.Remove(Seqs.Filter(cards, NotAmong(ids)), k, CardKey) == Seqs.Filter(cards, NotAmong(ids + {k}))
  {
    forall x: Card ensures NotAmong(ids + {k})(x) == (NotAmong(ids)(x) && Keyed.KeyIsNot(CardKey, k)(x)) {
      assert NotAmong(ids)(x) == (x.id !in ids);
      assert NotAmong(ids + {k})(x) == (x.id !in ids + {k});
      assert Keyed.KeyIsNot(CardKey, k)(x) == (CardKey(x) != k);
    }
    Seqs.FilterFilter(cards, NotAmong(ids), Keyed.KeyIsNot(CardKey, k), NotAmong(ids + {k}));
  }

  /** In a store with each key once, the cards whose id is that of a card of
      the deck are the cards of the deck. */
  lemma DeckIdsAmong(cards: seq<Card>, deckId: Id)
    requires Keyed.Ascending(cards, CardKey)
    ensures Seqs.Filter(cards, NotAmong(IdsOf(CardsOfDeck(cards, deckId)))) == CardsNotOfDeck(cards, deckId)
  {
    var doomed := CardsOfDeck(cards, deckId);
    forall x | x in cards ensures NotAmong(IdsOf(doomed))(x) == (x.deckId != deckId) {
      if x.deckId == deckId {
        var k :| 0 <= k < |cards| && cards[k] == x;
        assert x in doomed;
      }
      if x.id in IdsOf(doomed) {
        var y :| y in doomed && y.id == x.id;
        var i :| 0 <= i < |cards| && cards[i] == x;
        var j :| 0 <= j < |cards| && cards[j] == y;
        assert i == j;
      }
    }
    Seqs.FilterExt(cards, NotAmong(IdsOf(doomed)), (c: Card) => c.deckId != deckId);
  }

  // ------------------------------------------------------------ the handle

  class MnemozaDatabase {
    var initialized: bool
    var decks: seq<Deck>
    var cards: seq<Card>
    var nextId: Id

    function State(): Store
      reads this
    {
      Store(decks, cards, nextId)
    }

    predicate Valid()
      reads this
    {
      StoreValid(State())
    }

    /** A handle that is not open yet, on empty stores. */
    constructor ()
      ensures Valid() && !initialized && decks == [] && cards == [] && nextId == 0
    {
      initialized := false;
      decks := [];
      cards := [];
      nextId := 0;
    }

    /** `init`: open the handle; the stores keep what they hold. */
    method Init()
      modifies this
      ensures initialized && State() == old(State())
    {
      initialized := true;
    }

    /** The supply skips every id below `bound` (see `SupplyPast`); a
        handle that is not open generates no id. */
    method ReserveIds(bound: Id)
      requires Valid()
      modifies this
      ensures Valid() && initialized == old(initialized)
      ensures initialized ==> State() == SupplyPast(old(State()), bound)
      ensures !initialized ==> State() == old(State())
    {
      if initialized {
        nextId := MaxId(nextId, bound);
      }
    }

    /** `ensureDB`: every operation fails before `init`. */
    method EnsureDb() returns (r: Option<DbError>)
      ensures r.None? <==> initialized
      ensures r.Some? ==> r.value == NotInitialized
    {
      if !initialized {
        return Some(NotInitialized);
      }
      return None;
    }

    method CreateDeck(name: string, description: Option<string>, now: Timestamp) returns (r: Result<Deck, DbError>)
      requires Valid()
      modifies this
      ensures Valid() && initialized == old(initialized)
      ensures !initialized ==> r == Err(NotInitialized) && State() == old(State())
      ensures initialized ==> r == Ok(NewDeck(old(State()), name, description, now))
                              && State() == AddDeck(old(State()), name, description, now)
    {
      var e := EnsureDb();
      if e.Some? {
        return Err(e.value);
      }
      var deck := NewDeck(State(), name, description, now);
      AddDeckSpec(State(), name, description, now);
      decks := decks + [deck];
      nextId := nextId + 1;
      return Ok(deck);
    }

    method GetDecks() returns (r: Result<seq<Deck>, DbError>)
      ensures !initialized <==> r == Err(NotInitialized)
      ensures initialized ==> r == Ok(decks)
    {
      var e := EnsureDb();
      if e.Some? {
        return Err(e.value);
      }
      return Ok(decks);
    }

    method GetDeck(id: Id) returns (r: Result<Option<Deck>, DbError>)
      ensures !initialized <==> r == Err(NotInitialized)
      ensures r.Ok? && r.value.Some? ==> r.value.value in decks && r.value.value.id == id
      ensures r.Ok? && r.value.None? ==> !Keyed.HasKey(decks, id, DeckKey)
    {
      var e := EnsureDb();
      if e.Some? {
        return Err(e.value);
      }
      return Ok(Keyed.Find(decks, id, DeckKey));
    }

    /** `updateDeck`: put the deck with `updatedAt` set to `now`. */
    method UpdateDeck(deck: Deck, now: Timestamp) returns (r: Result<(), DbError>)
      requires Valid()
      modifies this
      ensures Valid() && initialized == old(initialized)
      ensures !initialized ==> r == Err(NotInitialized) && State() == old(State())
      ensures initialized ==> r == Ok(()) && State() == PutDeck(old(State()), deck.(updatedAt := now))
    {
      var e := EnsureDb();
      if e.Some? {
        return Err(e.value);
      }
      PutDeckRecord(deck.(updatedAt := now));
      return Ok(());
    }

    /** `deleteDeck`: delete the deck, then each card the `deckId` index lists for it. */
    method DeleteDeck(id: Id) returns (r: Result<(), DbError>)
      requires Valid()
      modifies this
      ensures Valid() && initialized == old(initialized)
      ensures !initialized ==> r == Err(NotInitialized) && State() == old(State())
      ensures initialized ==> r == Ok(()) && State() == DropDeck(old(State()), id)
    {
      var e := EnsureDb();
      if e.Some? {
        return Err(e.value);
      }
      ghost var st0 := State();
      DropDeckValid(st0, id);
      decks := Keyed.Remove(decks, id, DeckKey);
      var doomed := CardsOfDeck(cards, id);
      DeleteEach(doomed);
      DeckIdsAmong(st0.cards, id);
      return Ok(());
    }

    /** The cascade loop of `deleteDeck`: delete each listed card by id. */
    method DeleteEach(doomed: seq<Card>)
      modifies this
      ensures cards == Seqs.Filter(old(cards), NotAmong(IdsOf(doomed)))
      ensures decks == old(decks) && nextId == old(nextId) && initialized == old(initialized)
    {
      ghost var cards0 := cards;
      assert doomed[..0] == [];
      assert IdsOf(doomed[..0]) == {};
      Seqs.FilterAll(cards0, NotAmong({}));
      for i := 0 to |doomed|
        invariant cards == Seqs.Filter(cards0, NotAmong(IdsOf(doomed[..i])))
        invariant decks == old(decks) && nextId == old(nextId) && initialized == old(initialized)
      {
        IdsOfSnoc(doomed, i);
        RemoveAmong(cards0, IdsOf(doomed[..i]), doomed[i].id);
        cards := Keyed.Remove(cards, doomed[i].id, CardKey);
      }
      assert doomed[..|doomed|] == doomed;
    }

    /** `createCard`: store the draft under a fresh id, stamped `now`. */
    method CreateCard(draft: Card, now: Timestamp) returns (r: Result<Card, DbError>)
      requires Valid()
      modifies this
      ensures Valid() && initialized == old(initialized)
      ensures !initialized ==> r == Err(NotInitialized) && State() == old(State())
      ensures initialized ==> r == Ok(NewCard(old(State()), draft, now)) && State() == AddCard(old(State()), draft, now)
    {
      var e := EnsureDb();
      if e.Some? {
        return Err(e.value);
      }
      var card := NewCard(State(), draft, now);
      AddCardSpec(State(), draft, now);
      cards := cards + [card];
      nextId := nextId + 1;
      return Ok(card);
    }

    method GetCard(id: Id) returns (r: Result<Option<Card>, DbError>)
      ensures !initialized <==> r == Err(NotInitialized)
      ensures initialized ==> r == Ok(Keyed.Find(cards, id, CardKey))
      ensures r.Ok? && r.value.Some? ==> r.value.value in cards && r.value.value.id == id
      ensures r.Ok? && r.value.None? ==> !Keyed.HasKey(cards, id, CardKey)
    {
      var e := EnsureDb();
      if e.Some? {
        return Err(e.value);
      }
      return Ok(Keyed.Find(cards, id, CardKey));
    }

    method GetCardsByDeck(deckId: Id) returns (r: Result<seq<Card>, DbError>)
      ensures !initialized <==> r == Err(NotInitialized)
      ensures initialized ==> r == Ok(CardsOfDeck(cards, deckId))
      ensures r.Ok? ==> forall k :: 0 <= k < |r.value| ==> r.value[k] in cards && r.value[k].deckId == deckId
    {
      var e := EnsureDb();
      if e.Some? {
        return Err(e.value);
      }
      return Ok(CardsOfDeck(cards, deckId));
    }

    /** `getNewCards`: walk the store in key order, collecting new cards of
        the deck until `limit` are found. */
    method GetNewCards(deckId: Option<Id>, limit: int) returns (r: Result<seq<Card>, DbError>)
      ensures !initialized <==> r == Err(NotInitialized)
      ensures initialized ==> r == Ok(NewCardsOf(cards, deckId, limit))
    {
      var e := EnsureDb();
      if e.Some? {
        return Err(e.value);
      }
      var found: seq<Card> := [];
      var i := 0;
      while i < |cards| && |found| < limit
        invariant 0 <= i <= |cards|
        invariant found == NewMatches(cards[..i], deckId)
        invariant limit <= 0 ==> found == []
        invariant 0 < limit ==> |found| <= limit
      {
        Seqs.FilterSnoc(cards, i, c => IsNewIn(c, deckId));
        if cards[i].isNew && InDeck(cards[i], deckId) {
          found := found + [cards[i]];
        }
        i := i + 1;
      }
      NewCardsCutOff(cards, i, deckId, limit);
      return Ok(found);
    }

    /** `getDueCards`: collect the review cards of the deck that are due, then
        sort them by review date. */
    method GetDueCards(deckId: Option<Id>, now: Timestamp) returns (r: Result<seq<Card>, DbError>)
      ensures !initialized <==> r == Err(NotInitialized)
      ensures initialized ==> r == Ok(DueCardsOf(cards, deckId, now))
    {
      var e := EnsureDb();
      if e.Some? {
        return Err(e.value);
      }
      var found: seq<Card> := [];
      for i := 0 to |cards|
        invariant found == DueMatches(cards[..i], deckId, now)
      {
        Seqs.FilterSnoc(cards, i, c => IsDueIn(c, deckId, now));
        var card := cards[i];
        if card.nextReviewDate <= now && !card.isNew && InDeck(card, deckId) {
          found := found + [card];
        }
      }
      assert cards[..|cards|] == cards;
      return Ok(SortByDate(found));
    }

    /** `db.put('cards', card)`. */
    method PutCardRecord(card: Card)
      requires Valid()
      modifies this
      ensures Valid() && initialized == old(initialized)
      ensures State() == PutCard(old(State()), card)
    {
      PutCardValid(State(), card);
      cards := Keyed.Upsert(cards, card, CardKey);
      nextId := MaxId(nextId, card.id + 1);
    }

    /** `db.put('decks', deck)`. */
    method PutDeckRecord(deck: Deck)
      requires Valid()
      modifies this
      ensures Valid() && initialized == old(initialized)
      ensures State() == PutDeck(old(State()), deck)
    {
      PutDeckValid(State(), deck);
      decks := Keyed.Upsert(decks, deck, DeckKey);
      nextId := MaxId(nextId, deck.id + 1);
    }

    /** `updateCard`: put the card with `updatedAt` set to `now`. */
    method UpdateCard(card: Card, now: Timestamp) returns (r: Result<(), DbError>)
      requires Valid()
      modifies this
      ensures Valid() && initialized == old(initialized)
      ensures !initialized ==> r == Err(NotInitialized) && State() == old(State())
      ensures initialized ==> r == Ok(()) && State() == PutCard(old(State()), card.(updatedAt := now))
    {
      var e := EnsureDb();
      if e.Some? {
        return Err(e.value);
      }
      PutCardRecord(card.(updatedAt := now));
      return Ok(());
    }

    /** `updateCardFields`: look the card up, fail when it is absent, put
        the merge otherwise. */
    method UpdateCardFields(cardId: Id, patch: CardPatch, now: Timestamp) returns (r: Result<(), DbError>)
      requires Valid()
      modifies this
      ensures Valid() && initialized == old(initialized)
      ensures !initialized ==> r == Err(NotInitialized) && State() == old(State())
      ensures initialized ==>
        match PatchCard(old(State()), cardId, patch, now)
        case Ok(st) => r == Ok(()) && State() == st
        case Err(error) => r == Err(error) && State() == old(State())
    {
      var e := EnsureDb();
      if e.Some? {
        return Err(e.value);
      }
      ghost var st0 := State();
      var found := Keyed.Find(cards, cardId, CardKey);
      if found.None? {
        assert PatchCard(st0, cardId, patch, now) == Err(CardNotFound(cardId));
        return Err(CardNotFound(cardId));
      }
      var updated := Merge(found.value, patch, cardId, now);
      assert PatchCard(st0, cardId, patch, now) == Ok(PutCard(st0, updated));
      PutCardRecord(updated);
      return Ok(());
    }

    method DeleteCard(id: Id) returns (r: Result<(), DbError>)
      requires Valid()
      modifies this
      ensures Valid() && initialized == old(initialized)
      ensures !initialized ==> r == Err(NotInitialized) && State() == old(State())
      ensures initialized ==> r == Ok(()) && State() == DropCard(old(State()), id)
    {
      var e := EnsureDb();
      if e.Some? {
        return Err(e.value);
      }
      DropCardValid(State(), id);
      cards := Keyed.Remove(cards, id, CardKey);
      return Ok(());
    }

    /** `getCardCount`: one pass over the store, bumping the counters. */
    method GetCardCount(deckId: Option<Id>, now: Timestamp) returns (r: Result<CardCount, DbError>)
      ensures !initialized <==> r == Err(NotInitialized)
      ensures initialized ==> r == Ok(CountCards(cards, deckId, now))
      ensures r.Ok? ==> r.value.newCount + r.value.due <= r.value.total
    {
      var e := EnsureDb();
      if e.Some? {
        return Err(e.value);
      }
      var total, newCount, due := 0, 0, 0;
      for i := 0 to |cards|
        invariant CardCount(total, newCount, due) == CountCards(cards[..i], deckId, now)
      {
        CountCardsSnoc(cards, i, deckId, now);
        var card := cards[i];
        if InDeck(card, deckId) {
          total := total + 1;
          if card.isNew {
            newCount := newCount + 1;
          } else if card.nextReviewDate <= now {
            due := due + 1;
          }
        }
      }
      assert cards[..|cards|] == cards;
      CountCardsBound(cards, deckId, now);
      return Ok(CardCount(total, newCount, due));
    }
  }
}
