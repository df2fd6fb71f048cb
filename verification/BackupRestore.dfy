/** Backup and restore (`useDataManagementModel`): export gathers every
    deck's cards; import re-creates missing decks and merges cards, the
    newer `updatedAt` winning. Files are taken already parsed. */
module BackupRestore {
  import opened Wrappers
  import opened CardTypes
  import Seqs
  import Keyed
  import Database

  const FORMAT_VERSION := "1.0.0"

  /** A backup file: a missing key is `None`. */
  datatype ExportData = ExportData(
    version: Option<string>,
    exportDate: string,
    decks: Option<seq<Deck>>,
    cards: Option<seq<Card>>)

  // ------------------------------------------------------------ export

  /** Each deck's cards, deck after deck. */
  function ExportCards(decks: seq<Deck>, cards: seq<Card>): seq<Card>
  {
    if decks == [] then []
    else ExportCards(decks[..|decks| - 1], cards) + Database.CardsOfDeck(cards, decks[|decks| - 1].id)
  }

  /** A card is exported exactly when it is stored and one of the listed
      decks is its deck. */
  lemma {:induction false} ExportCardsSpec(decks: seq<Deck>, cards: seq<Card>)
    ensures forall c :: c in ExportCards(decks, cards) <==> c in cards && exists d :: d in decks && d.id == c.deckId
  {
    if decks != [] {
      var init := decks[..|decks| - 1];
      var last := decks[|decks| - 1];
      ExportCardsSpec(init, cards);
      forall c ensures c in Database.CardsOfDeck(cards, last.id) <==> c in cards && c.deckId == last.id {
        if c in cards && c.deckId == last.id {
          var k :| 0 <= k < |cards| && cards[k] == c;
        }
      }
      forall c | c in cards && (exists d :: d in decks && d.id == c.deckId)
        ensures c in ExportCards(decks, cards)
      {
        var d :| d in decks && d.id == c.deckId;
        if d != last {
          var k :| 0 <= k < |decks| && decks[k] == d;
          assert d in init;
        }
      }
    }
  }

  /** No stored card refers to a deck that is not stored. */
  predicate NoOrphans(st: Database.Store)
  {
    forall c :: c in st.cards ==> Keyed.HasKey(st.decks, c.deckId, Database.DeckKey)
  }

  /** On a store without orphans the export holds every card. */
  lemma ExportComplete(st: Database.Store)
    requires NoOrphans(st)
    ensures forall c :: c in st.cards ==> c in ExportCards(st.decks, st.cards)
  {
    ExportCardsSpec(st.decks, st.cards);
    forall c | c in st.cards ensures exists d :: d in st.decks && d.id == c.deckId {
      var i :| 0 <= i < |st.decks| && Database.DeckKey(st.decks[i]) == c.deckId;
      assert st.decks[i] in st.decks;
    }
  }

  /** `exportAllData`: the decks, and every deck's cards in deck order. */
  method ExportAllData(db: Database.MnemozaDatabase, exportDate: string) returns (r: Result<ExportData, Database.DbError>)
    ensures !db.initialized <==> r == Err(Database.NotInitialized)
    ensures db.initialized ==>
      r == Ok(ExportData(Some(FORMAT_VERSION), exportDate, Some(db.decks), Some(ExportCards(db.decks, db.cards))))
  {
    var loaded := db.GetDecks();
    if loaded.Err? {
      return Err(loaded.error);
    }
    var decks := loaded.value;
    var allCards := [];
    for i := 0 to |decks|
      invariant allCards == ExportCards(decks[..i], db.cards)
    {
      assert decks[..i + 1][..i] == decks[..i];
      var deckCards := db.GetCardsByDeck(decks[i].id);
      allCards := allCards + deckCards.value;
    }
    assert decks[..|decks|] == decks;
    return Ok(ExportData(Some(FORMAT_VERSION), exportDate, Some(decks), Some(allCards)));
  }

  // ------------------------------------------------------------ import

  /** The check before anything is written: a non-empty version, and both lists. */
  predicate WellFormed(data: ExportData)
  {
    data.version.Some? && data.version.value != "" && data.decks.Some? && data.cards.Some?
  }

  datatype ImportError = InvalidFormat

  datatype ImportCounts = ImportCounts(importedDecks: nat, importedCards: nat, updatedCards: nat)

  /** The store after some decks of the file, and how many were created. */
  datatype DeckPass = DeckPass(store: Database.Store, imported: nat)

  /** The store after some cards of the file, and how many were created and updated. */
  datatype CardPass = CardPass(store: Database.Store, created: nat, updated: nat)

  /** The store after a whole import, and its counters. */
  datatype Restored = Restored(store: Database.Store, counts: ImportCounts)

  /** One deck of the file: created, under a fresh id, when no stored deck
      has its id; counted when created. */
  function ImportDeck(st: Database.Store, deck: Deck, now: Timestamp): DeckPass
  {
    if Keyed.Find(st.decks, deck.id, Database.DeckKey).None?
    then DeckPass(Database.AddDeck(st, deck.name, deck.description, now), 1)
    else DeckPass(st, 0)
  }

  function ImportDecks(st: Database.Store, decks: seq<Deck>, now: Timestamp): DeckPass
  {
    if decks == [] then DeckPass(st, 0)
    else
      var p := ImportDecks(st, decks[..|decks| - 1], now);
      var q := ImportDeck(p.store, decks[|decks| - 1], now);
      DeckPass(q.store, p.imported + q.imported)
  }

  /** The fields an import copies onto a stored card. */
  function ImportPatch(card: Card): Database.CardPatch
  {
    Database.CardPatch(Some(card.front), Some(card.back), None, Some(card.interval), Some(card.repetitions),
                       Some(card.easeFactor), Some(card.nextReviewDate), None, Some(card.updatedAt),
                       Some(card.isNew), None)
  }

  /** One card of the file: looked up by id among the cards of its deck;
      a stored card is overwritten when the file's copy is strictly newer,
      a missing one is created under a fresh id. Returns the counts of
      created and of updated cards. */
  function ImportCard(st: Database.Store, card: Card, now: Timestamp): CardPass
  {
    match Keyed.Find(Database.CardsOfDeck(st.cards, card.deckId), card.id, Database.CardKey)
    case None => CardPass(Database.AddCard(st, card, now), 1, 0)
    case Some(existing) =>
      if card.updatedAt > existing.updatedAt then
        match Database.PatchCard(st, card.id, ImportPatch(card), now)
        case Ok(st') => CardPass(st', 0, 1)
        case Err(_) => CardPass(st, 0, 0)
      else CardPass(st, 0, 0)
  }

  function ImportCards(st: Database.Store, cards: seq<Card>, now: Timestamp): CardPass
  {
    if cards == [] then CardPass(st, 0, 0)
    else
      var p := ImportCards(st, cards[..|cards| - 1], now);
      var q := ImportCard(p.store, cards[|cards| - 1], now);
      CardPass(q.store, p.created + q.created, p.updated + q.updated)
  }

  /** One more than every id the file names: its deck ids, its card ids
      and the deck ids its cards refer to. */
  function FileIdBound(decks: seq<Deck>, cards: seq<Card>): (b: Id)
    ensures forall i :: 0 <= i < |decks| ==> decks[i].id < b
    ensures forall i :: 0 <= i < |cards| ==> cards[i].id < b && cards[i].deckId < b
  {
    if decks != [] then
      Database.MaxId(FileIdBound(decks[..|decks| - 1], cards), decks[|decks| - 1].id + 1)
    else if cards != [] then
      var last := cards[|cards| - 1];
      Database.MaxId(FileIdBound([], cards[..|cards| - 1]), Database.MaxId(last.id, last.deckId) + 1)
    else 0
  }

  /** The whole import on an open store: decks first, then cards. The ids
      generated on the way are fresh, so none equals an id of the file. */
  function ImportAll(st: Database.Store, decks: seq<Deck>, cards: seq<Card>, now: Timestamp): Restored
  {
    var st0 := Database.SupplyPast(st, FileIdBound(decks, cards));
    var p := ImportDecks(st0, decks, now);
    var q := ImportCards(p.store, cards, now);
    Restored(q.store, ImportCounts(p.imported, q.created, q.updated))
  }

  lemma ImportDecksSnoc(st: Database.Store, decks: seq<Deck>, i: nat, now: Timestamp)
    requires i < |decks|
    ensures var p := ImportDecks(st, decks[..i], now);
            var q := ImportDeck(p.store, decks[i], now);
      ImportDecks(st, decks[..i + 1], now) == DeckPass(q.store, p.imported + q.imported)
  {
    assert decks[..i + 1][..i] == decks[..i];
  }

  lemma ImportCardsSnoc(st: Database.Store, cards: seq<Card>, i: nat, now: Timestamp)
    requires i < |cards|
    ensures var p := ImportCards(st, cards[..i], now);
            var q := ImportCard(p.store, cards[i], now);
      ImportCards(st, cards[..i + 1], now) == CardPass(q.store, p.created + q.created, p.updated + q.updated)
  {
    assert cards[..i + 1][..i] == cards[..i];
  }

  /** A deck is created exactly when its id is not stored yet; the new deck
      takes the next fresh id (within `ImportAll` never the file's, see
      `ImportDecksCreateMissing`), every other id finds what it found
      before, and the cards are untouched. */
  lemma ImportDeckSpec(st: Database.Store, deck: Deck, now: Timestamp)
    requires Database.StoreValid(st)
    ensures var p := ImportDeck(st, deck, now); var st', n := p.store, p.imported;
      && Database.StoreValid(st') && st'.cards == st.cards && st'.nextId == st.nextId + n
      && (Keyed.HasKey(st.decks, deck.id, Database.DeckKey) ==> n == 0 && st' == st)
      && (!Keyed.HasKey(st.decks, deck.id, Database.DeckKey) ==>
            && n == 1 && st'.decks == st.decks + [Deck(st.nextId, deck.name, deck.description, now, now)]
            && (forall k: nat :: Keyed.Find(st'.decks, k, Database.DeckKey)
                  == if k == st.nextId then Some(Deck(st.nextId, deck.name, deck.description, now, now))
                     else Keyed.Find(st.decks, k, Database.DeckKey)))
  {
    Database.AddDeckSpec(st, deck.name, deck.description, now);
  }

  /** Last writer wins: a card found in its deck is overwritten only by a
      strictly newer copy, which brings front, back, the schedule and the
      learning flag but keeps the id and the deck and is stamped `now`, and
      no other card changes; an equal or older copy changes nothing. A card not found is created. */
  lemma ImportCardSpec(st: Database.Store, card: Card, now: Timestamp)
    requires Database.StoreValid(st)
    ensures var p := ImportCard(st, card, now); var st', created, updated := p.store, p.created, p.updated;
      && Database.StoreValid(st') && st'.decks == st.decks
      && match Keyed.Find(Database.CardsOfDeck(st.cards, card.deckId), card.id, Database.CardKey)
         case None => created == 1 && updated == 0 && st' == Database.AddCard(st, card, now)
         case Some(existing) =>
           && created == 0
           && (card.updatedAt <= existing.updatedAt ==> updated == 0 && st' == st)
           && (card.updatedAt > existing.updatedAt ==>
                 && updated == 1
                 && Keyed.Find(st'.cards, card.id, Database.CardKey)
                    == Some(existing.(front := card.front, back := card.back, interval := card.interval,
                                      repetitions := card.repetitions, easeFactor := card.easeFactor,
                                      nextReviewDate := card.nextReviewDate, isNew := card.isNew, updatedAt := now))
                 && st'.nextId == st.nextId
                 && (forall k: nat :: k != card.id ==>
                       Keyed.Find(st'.cards, k, Database.CardKey) == Keyed.Find(st.cards, k, Database.CardKey)))
  {
    match Keyed.Find(Database.CardsOfDeck(st.cards, card.deckId), card.id, Database.CardKey)
    case None =>
      Database.AddCardSpec(st, card, now);
    case Some(existing) =>
      if card.updatedAt > existing.updatedAt {
        Keyed.FindUnique(st.cards, existing, Database.CardKey);
        Database.PatchCardSpec(st, card.id, ImportPatch(card), now);
      }
  }

  /** Each deck of the file is created at most once. */
  lemma {:induction false} ImportDecksBound(st: Database.Store, decks: seq<Deck>, now: Timestamp)
    requires Database.StoreValid(st)
    ensures var p := ImportDecks(st, decks, now);
      Database.StoreValid(p.store) && p.store.cards == st.cards && p.imported <= |decks|
  {
    if decks != [] {
      ImportDecksBound(st, decks[..|decks| - 1], now);
      ImportDeckSpec(ImportDecks(st, decks[..|decks| - 1], now).store, decks[|decks| - 1], now);
    }
  }

  /** Each card of the file is created or updated at most once. */
  lemma {:induction false} ImportCardsBound(st: Database.Store, cards: seq<Card>, now: Timestamp)
    requires Database.StoreValid(st)
    ensures var p := ImportCards(st, cards, now);
      Database.StoreValid(p.store) && p.store.decks == st.decks && p.created + p.updated <= |cards|
  {
    if cards != [] {
      ImportCardsBound(st, cards[..|cards| - 1], now);
      ImportCardSpec(ImportCards(st, cards[..|cards| - 1], now).store, cards[|cards| - 1], now);
    }
  }

  /** The counters never exceed the file's lists. */
  lemma ImportAllBound(st: Database.Store, decks: seq<Deck>, cards: seq<Card>, now: Timestamp)
    requires Database.StoreValid(st)
    ensures var r := ImportAll(st, decks, cards, now); var counts := r.counts;
      && Database.StoreValid(r.store)
      && counts.importedDecks <= |decks| && counts.importedCards + counts.updatedCards <= |cards|
  {
    var st0 := Database.SupplyPast(st, FileIdBound(decks, cards));
    ImportDecksBound(st0, decks, now);
    ImportCardsBound(ImportDecks(st0, decks, now).store, cards, now);
  }

  // ------------------------------------------------------------ what the import creates

  /** A deck of the file whose id no deck of `stored` has. */
  function DeckMissing(stored: seq<Deck>): Deck -> bool
  {
    (d: Deck) => Keyed.Find(stored, d.id, Database.DeckKey).None?
  }

  /** With the supply past the file's deck ids, the deck pass creates one
      deck for every file deck whose id was not stored before (a repeated
      id included, since the first copy goes in under a fresh id), and an
      id below the supply finds what it found before. */
  lemma {:induction false} ImportDecksCreateMissing(st: Database.Store, decks: seq<Deck>, now: Timestamp)
    requires Database.StoreValid(st)
    requires forall i :: 0 <= i < |decks| ==> decks[i].id < st.nextId
    ensures var p := ImportDecks(st, decks, now);
      && p.imported == |Seqs.Filter(decks, DeckMissing(st.decks))|
      && p.store.nextId == st.nextId + p.imported
      && (forall k: nat :: k < st.nextId ==>
            Keyed.Find(p.store.decks, k, Database.DeckKey) == Keyed.Find(st.decks, k, Database.DeckKey))
  {
    if decks != [] {
      var init := decks[..|decks| - 1];
      var last := decks[|decks| - 1];
      ImportDecksCreateMissing(st, init, now);
      ImportDecksBound(st, init, now);
      var p := ImportDecks(st, init, now);
      ImportDeckSpec(p.store, last, now);
      assert Keyed.Find(p.store.decks, last.id, Database.DeckKey) == Keyed.Find(st.decks, last.id, Database.DeckKey);
    }
  }

  /** The deck a stored card id belongs to, if the id is stored. */
  function DeckOf(cards: seq<Card>, k: Id): Option<Id>
  {
    match Keyed.Find(cards, k, Database.CardKey)
    case None => None
    case Some(c) => Some(c.deckId)
  }

  /** Looking a card up among its deck's cards finds it exactly when the
      id is stored and belongs to that deck. */
  lemma FoundInDeck(cards: seq<Card>, deckId: Id, k: Id)
    requires Keyed.Ascending(cards, Database.CardKey)
    ensures Keyed.Find(Database.CardsOfDeck(cards, deckId), k, Database.CardKey).None? <==> DeckOf(cards, k) != Some(deckId)
  {
    var listed := Database.CardsOfDeck(cards, deckId);
    var r := Keyed.Find(listed, k, Database.CardKey);
    if r.Some? {
      Keyed.FindUnique(cards, r.value, Database.CardKey);
    }
    var f := Keyed.Find(cards, k, Database.CardKey);
    if f.Some? && f.value.deckId == deckId {
      var i :| 0 <= i < |cards| && cards[i] == f.value;
      assert f.value in listed;
      var j :| 0 <= j < |listed| && listed[j] == f.value;
      assert Keyed.HasKey(listed, k, Database.CardKey);
    }
  }

  /** A card of the file not found among the stored cards of its deck. */
  function CardMissing(stored: seq<Card>): Card -> bool
  {
    (c: Card) => Keyed.Find(Database.CardsOfDeck(stored, c.deckId), c.id, Database.CardKey).None?
  }

  /** One card step leaves every id below the supply in the deck it was
      in, and creates a card exactly when the file's card is missing. */
  lemma ImportCardKeepsLowIds(st: Database.Store, card: Card, bound: Id, now: Timestamp)
    requires Database.StoreValid(st) && bound <= st.nextId
    ensures var p := ImportCard(st, card, now);
      && p.store.nextId == st.nextId + p.created
      && p.created == (if CardMissing(st.cards)(card) then 1 else 0)
      && (forall k: Id :: k < bound ==> DeckOf(p.store.cards, k) == DeckOf(st.cards, k))
  {
    match Keyed.Find(Database.CardsOfDeck(st.cards, card.deckId), card.id, Database.CardKey)
    case None =>
      AddKeepsDecks(st, card, now);
    case Some(existing) =>
      if card.updatedAt > existing.updatedAt {
        PatchKeepsDecks(st, existing, card, now);
      }
  }

  /** Creating a card keeps every id below the supply in its deck. */
  lemma AddKeepsDecks(st: Database.Store, card: Card, now: Timestamp)
    requires Database.StoreValid(st)
    ensures forall k: Id :: k < st.nextId ==> DeckOf(Database.AddCard(st, card, now).cards, k) == DeckOf(st.cards, k)
  {
    Database.AddCardSpec(st, card, now);
  }

  /** Overwriting a stored card from the file keeps every id in its deck. */
  lemma PatchKeepsDecks(st: Database.Store, existing: Card, card: Card, now: Timestamp)
    requires Database.StoreValid(st) && existing in st.cards && existing.id == card.id
    ensures var r := Database.PatchCard(st, card.id, ImportPatch(card), now);
      && r.Ok? && r.value.nextId == st.nextId
      && (forall k: Id :: DeckOf(r.value.cards, k) == DeckOf(st.cards, k))
  {
    Keyed.FindUnique(st.cards, existing, Database.CardKey);
    Database.PatchCardSpec(st, card.id, ImportPatch(card), now);
    var merged := Database.Merge(existing, ImportPatch(card), card.id, now);
    assert merged.deckId == existing.deckId;
  }

  /** Whether a file card is missing depends only on the deck its id is stored in. */
  lemma MissingAgrees(a: seq<Card>, b: seq<Card>, card: Card)
    requires Keyed.Ascending(a, Database.CardKey) && Keyed.Ascending(b, Database.CardKey)
    requires DeckOf(a, card.id) == DeckOf(b, card.id)
    ensures CardMissing(a)(card) == CardMissing(b)(card)
  {
    FoundInDeck(a, card.deckId, card.id);
    FoundInDeck(b, card.deckId, card.id);
  }

  /** Every id below the supply stays in the deck it was in through the
      card pass, and the supply moves on by one per created card. */
  lemma {:induction false} ImportCardsKeepLowIds(st: Database.Store, cards: seq<Card>, now: Timestamp)
    requires Database.StoreValid(st)
    ensures var p := ImportCards(st, cards, now);
      && p.store.nextId == st.nextId + p.created
      && (forall k: Id :: k < st.nextId ==> DeckOf(p.store.cards, k) == DeckOf(st.cards, k))
  {
    if cards != [] {
      var init := cards[..|cards| - 1];
      ImportCardsKeepLowIds(st, init, now);
      ImportCardsBound(st, init, now);
      ImportCardKeepsLowIds(ImportCards(st, init, now).store, cards[|cards| - 1], st.nextId, now);
    }
  }

  /** With the supply past the file's card ids, the card pass creates one
      card for every file card not found in its deck beforehand (a
      repeated id included, since the first copy goes in under a fresh id). */
  lemma {:induction false} ImportCardsCreateMissing(st: Database.Store, cards: seq<Card>, now: Timestamp)
    requires Database.StoreValid(st)
    requires forall i :: 0 <= i < |cards| ==> cards[i].id < st.nextId
    ensures ImportCards(st, cards, now).created == |Seqs.Filter(cards, CardMissing(st.cards))|
  {
    if cards != [] {
      var init := cards[..|cards| - 1];
      var last := cards[|cards| - 1];
      ImportCardsCreateMissing(st, init, now);
      ImportCardsKeepLowIds(st, init, now);
      ImportCardsBound(st, init, now);
      var p := ImportCards(st, init, now);
      ImportCardKeepsLowIds(p.store, last, st.nextId, now);
      MissingAgrees(p.store.cards, st.cards, last);
    }
  }

  /** The counts `importData` reports: one new deck for every file deck
      whose id was not stored, and one new card for every file card not
      found among its deck's stored cards, both judged against the store
      as it was before the import. */
  lemma ImportAllCreatesMissing(st: Database.Store, decks: seq<Deck>, cards: seq<Card>, now: Timestamp)
    requires Database.StoreValid(st)
    ensures var counts := ImportAll(st, decks, cards, now).counts;
      && counts.importedDecks == |Seqs.Filter(decks, DeckMissing(st.decks))|
      && counts.importedCards == |Seqs.Filter(cards, CardMissing(st.cards))|
  {
    var st0 := Database.SupplyPast(st, FileIdBound(decks, cards));
    ImportDecksCreateMissing(st0, decks, now);
    ImportDecksBound(st0, decks, now);
    var st1 := ImportDecks(st0, decks, now).store;
    ImportCardsCreateMissing(st1, cards, now);
  }

  /** Some stored card refers to deck `d`. */
  predicate Refers(cards: seq<Card>, d: Id)
  {
    exists i :: 0 <= i < |cards| && cards[i].deckId == d
  }

  /** Two card stores that put every id in the same deck refer to the same
      decks. */
  lemma SameDecksSameRefs(a: seq<Card>, b: seq<Card>)
    requires Keyed.Ascending(a, Database.CardKey)
    requires forall k: Id :: DeckOf(b, k) == DeckOf(a, k)
    ensures forall d :: Refers(a, d) ==> Refers(b, d)
  {
    forall d | Refers(a, d) ensures Refers(b, d) {
      var i :| 0 <= i < |a| && a[i].deckId == d;
      Keyed.FindUnique(a, a[i], Database.CardKey);
      assert DeckOf(b, a[i].id) == Some(d);
      var f := Keyed.Find(b, a[i].id, Database.CardKey).value;
      var j :| 0 <= j < |b| && b[j] == f;
    }
  }

  /** After a card step some stored card refers to the file card's deck,
      and every deck referred to before still is. */
  lemma ImportCardLeavesDeckIds(st: Database.Store, card: Card, now: Timestamp)
    requires Database.StoreValid(st)
    ensures var cards' := ImportCard(st, card, now).store.cards;
      && Refers(cards', card.deckId)
      && forall d :: Refers(st.cards, d) ==> Refers(cards', d)
  {
    match Keyed.Find(Database.CardsOfDeck(st.cards, card.deckId), card.id, Database.CardKey)
    case None =>
      var cards' := st.cards + [Database.NewCard(st, card, now)];
      assert Database.AddCard(st, card, now).cards == cards';
      assert cards'[|st.cards|].deckId == card.deckId;
      forall d | Refers(st.cards, d) ensures Refers(cards', d) {
        var i :| 0 <= i < |st.cards| && st.cards[i].deckId == d;
        assert cards'[i] == st.cards[i];
      }
    case Some(existing) =>
      assert existing in st.cards && existing.deckId == card.deckId;
      var i :| 0 <= i < |st.cards| && st.cards[i] == existing;
      if card.updatedAt > existing.updatedAt {
        PatchKeepsDecks(st, existing, card, now);
        SameDecksSameRefs(st.cards, Database.PatchCard(st, card.id, ImportPatch(card), now).value.cards);
      }
  }

  lemma {:induction false} ImportCardsLeaveDeckIds(st: Database.Store, cards: seq<Card>, now: Timestamp)
    requires Database.StoreValid(st)
    ensures var cards' := ImportCards(st, cards, now).store.cards;
      && (forall i :: 0 <= i < |cards| ==> Refers(cards', cards[i].deckId))
      && (forall d :: Refers(st.cards, d) ==> Refers(cards', d))
  {
    if cards != [] {
      var init := cards[..|cards| - 1];
      ImportCardsLeaveDeckIds(st, init, now);
      ImportCardsBound(st, init, now);
      var st1 := ImportCards(st, init, now).store;
      ImportCardLeavesDeckIds(st1, cards[|cards| - 1], now);
      RefersSnoc(st1.cards, ImportCards(st, cards, now).store.cards, init, cards);
    }
  }

  /** The bookkeeping of one step of the card pass. */
  lemma RefersSnoc(before: seq<Card>, after: seq<Card>, init: seq<Card>, cards: seq<Card>)
    requires cards != [] && init == cards[..|cards| - 1]
    requires forall i :: 0 <= i < |init| ==> Refers(before, init[i].deckId)
    requires forall d :: Refers(before, d) ==> Refers(after, d)
    requires Refers(after, cards[|cards| - 1].deckId)
    ensures forall i :: 0 <= i < |cards| ==> Refers(after, cards[i].deckId)
  {
    forall i | 0 <= i < |cards| ensures Refers(after, cards[i].deckId) {
      if i < |cards| - 1 {
        assert init[i] == cards[i];
      }
    }
  }

  /** `importData` as written, on every file: the decks it creates get
      fresh ids, so the deck id of a file card whose deck was not stored
      beforehand is still stored nowhere afterwards, yet a card of that
      deck id is stored. Such a file leaves an orphaned card. */
  lemma RestoreOrphansCards(st: Database.Store, decks: seq<Deck>, cards: seq<Card>, now: Timestamp)
    requires Database.StoreValid(st)
    ensures var r := ImportAll(st, decks, cards, now);
      && (forall c :: c in cards && !Keyed.HasKey(st.decks, c.deckId, Database.DeckKey) ==>
            !Keyed.HasKey(r.store.decks, c.deckId, Database.DeckKey) && Refers(r.store.cards, c.deckId))
      && ((exists c :: c in cards && !Keyed.HasKey(st.decks, c.deckId, Database.DeckKey)) ==> !NoOrphans(r.store))
  {
    var st0 := Database.SupplyPast(st, FileIdBound(decks, cards));
    ImportDecksCreateMissing(st0, decks, now);
    ImportDecksBound(st0, decks, now);
    var st1 := ImportDecks(st0, decks, now).store;
    ImportCardsBound(st1, cards, now);
    ImportCardsLeaveDeckIds(st1, cards, now);
    var r := ImportAll(st, decks, cards, now);
    forall c | c in cards && !Keyed.HasKey(st.decks, c.deckId, Database.DeckKey)
      ensures !Keyed.HasKey(r.store.decks, c.deckId, Database.DeckKey) && Refers(r.store.cards, c.deckId)
    {
      var i :| 0 <= i < |cards| && cards[i] == c;
      assert Keyed.Find(st1.decks, c.deckId, Database.DeckKey) == Keyed.Find(st.decks, c.deckId, Database.DeckKey);
    }
    if exists c :: c in cards && !Keyed.HasKey(st.decks, c.deckId, Database.DeckKey) {
      var c :| c in cards && !Keyed.HasKey(st.decks, c.deckId, Database.DeckKey);
      var i :| 0 <= i < |r.store.cards| && r.store.cards[i].deckId == c.deckId;
      assert r.store.cards[i] in r.store.cards;
    }
  }

  /** `importData` on a parsed file: reject a malformed file before any
      write; otherwise import every deck, then every card, skipping any that
      fails. On a store that was never opened every item fails and nothing
      is counted. */
  method ImportData(db: Database.MnemozaDatabase, data: ExportData, now: Timestamp) returns (r: Result<ImportCounts, ImportError>)
    requires db.Valid()
    modifies db
    ensures db.Valid() && db.initialized == old(db.initialized)
    ensures !WellFormed(data) ==> r == Err(InvalidFormat) && db.State() == old(db.State())
    ensures WellFormed(data) && !db.initialized ==> r == Ok(ImportCounts(0, 0, 0)) && db.State() == old(db.State())
    ensures WellFormed(data) && db.initialized ==>
      r.Ok? && ImportAll(old(db.State()), data.decks.value, data.cards.value, now) == Restored(db.State(), r.value)
  {
    if !WellFormed(data) {
      return Err(InvalidFormat);
    }
    db.ReserveIds(FileIdBound(data.decks.value, data.cards.value));
    var importedDecks := ImportDeckList(db, data.decks.value, now);
    var importedCards, updatedCards := ImportCardList(db, data.cards.value, now);
    return Ok(ImportCounts(importedDecks, importedCards, updatedCards));
  }

  /** The deck loop of `importData`. */
  method ImportDeckList(db: Database.MnemozaDatabase, decks: seq<Deck>, now: Timestamp) returns (importedDecks: nat)
    requires db.Valid()
    modifies db
    ensures db.Valid() && db.initialized == old(db.initialized)
    ensures !db.initialized ==> importedDecks == 0 && db.State() == old(db.State())
    ensures db.initialized ==> ImportDecks(old(db.State()), decks, now) == DeckPass(db.State(), importedDecks)
  {
    importedDecks := 0;
    ghost var st0 := db.State();
    for i := 0 to |decks|
      invariant db.Valid() && db.initialized == old(db.initialized)
      invariant !db.initialized ==> importedDecks == 0 && db.State() == st0
      invariant db.initialized ==> ImportDecks(st0, decks[..i], now) == DeckPass(db.State(), importedDecks)
    {
      ImportDecksSnoc(st0, decks, i, now);
      var created := ImportOneDeck(db, decks[i], now);
      importedDecks := importedDecks + created;
    }
    assert decks[..|decks|] == decks;
  }

  /** One pass of the deck loop. */
  method ImportOneDeck(db: Database.MnemozaDatabase, deck: Deck, now: Timestamp) returns (created: nat)
    requires db.Valid()
    modifies db
    ensures db.Valid() && db.initialized == old(db.initialized)
    ensures !db.initialized ==> created == 0 && db.State() == old(db.State())
    ensures db.initialized ==> ImportDeck(old(db.State()), deck, now) == DeckPass(db.State(), created)
  {
    created := 0;
    var existingDecks := db.GetDecks();
    if existingDecks.Err? {
      return;
    }
    var existingDeck := Keyed.Find(existingDecks.value, deck.id, Database.DeckKey);
    if existingDeck.None? {
      var made := db.CreateDeck(deck.name, deck.description, now);
      if made.Ok? {
        created := 1;
      }
    }
  }

  /** The card loop of `importData`. */
  method ImportCardList(db: Database.MnemozaDatabase, cards: seq<Card>, now: Timestamp)
    returns (importedCards: nat, updatedCards: nat)
    requires db.Valid()
    modifies db
    ensures db.Valid() && db.initialized == old(db.initialized)
    ensures !db.initialized ==> importedCards == 0 && updatedCards == 0 && db.State() == old(db.State())
    ensures db.initialized ==> ImportCards(old(db.State()), cards, now) == CardPass(db.State(), importedCards, updatedCards)
  {
    importedCards, updatedCards := 0, 0;
    ghost var st0 := db.State();
    for i := 0 to |cards|
      invariant db.Valid() && db.initialized == old(db.initialized)
      invariant !db.initialized ==> importedCards == 0 && updatedCards == 0 && db.State() == st0
      invariant db.initialized ==> ImportCards(st0, cards[..i], now) == CardPass(db.State(), importedCards, updatedCards)
    {
      ImportCardsSnoc(st0, cards, i, now);
      var created, updated := ImportOneCard(db, cards[i], now);
      importedCards, updatedCards := importedCards + created, updatedCards + updated;
    }
    assert cards[..|cards|] == cards;
  }

  /** One pass of the card loop. */
  method ImportOneCard(db: Database.MnemozaDatabase, card: Card, now: Timestamp) returns (created: nat, updated: nat)
    requires db.Valid()
    modifies db
    ensures db.Valid() && db.initialized == old(db.initialized)
    ensures !db.initialized ==> created == 0 && updated == 0 && db.State() == old(db.State())
    ensures db.initialized ==> ImportCard(old(db.State()), card, now) == CardPass(db.State(), created, updated)
  {
    created, updated := 0, 0;
    var existingCards := db.GetCardsByDeck(card.deckId);
    if existingCards.Err? {
      return;
    }
    var existingCard := Keyed.Find(existingCards.value, card.id, Database.CardKey);
    if existingCard.Some? {
      if card.updatedAt > existingCard.value.updatedAt {
        var u := db.UpdateCardFields(card.id, ImportPatch(card), now);
        if u.Ok? {
          updated := 1;
        }
      }
    } else {
      var c := db.CreateCard(card, now);
      if c.Ok? {
        created := 1;
      }
    }
  }

  /** The intended deck step: a missing deck is created under the file's own id. */
  function ImportDeckKeepingId(st: Database.Store, deck: Deck, now: Timestamp): DeckPass
  {
    if Keyed.Find(st.decks, deck.id, Database.DeckKey).None?
    then DeckPass(Database.PutDeck(st, Deck(deck.id, deck.name, deck.description, now, now)), 1)
    else DeckPass(st, 0)
  }

  function ImportDecksKeepingIds(st: Database.Store, decks: seq<Deck>, now: Timestamp): DeckPass
  {
    if decks == [] then DeckPass(st, 0)
    else
      var p := ImportDecksKeepingIds(st, decks[..|decks| - 1], now);
      var q := ImportDeckKeepingId(p.store, decks[|decks| - 1], now);
      DeckPass(q.store, p.imported + q.imported)
  }

  function ImportAllKeepingIds(st: Database.Store, decks: seq<Deck>, cards: seq<Card>, now: Timestamp): Restored
  {
    var p := ImportDecksKeepingIds(Database.SupplyPast(st, FileIdBound(decks, cards)), decks, now);
    var q := ImportCards(p.store, cards, now);
    Restored(q.store, ImportCounts(p.imported, q.created, q.updated))
  }

  /** With the file's ids kept, every deck of the file is stored afterwards,
      every deck stored before still is, and the cards are untouched. */
  lemma {:induction false} DecksKeptPresent(st: Database.Store, decks: seq<Deck>, now: Timestamp)
    ensures var p := ImportDecksKeepingIds(st, decks, now); var st', n := p.store, p.imported;
      && st'.cards == st.cards && n <= |decks|
      && (forall k :: Keyed.HasKey(st.decks, k, Database.DeckKey) ==> Keyed.HasKey(st'.decks, k, Database.DeckKey))
      && (forall d :: d in decks ==> Keyed.HasKey(st'.decks, d.id, Database.DeckKey))
  {
    if decks != [] {
      var init := decks[..|decks| - 1];
      var last := decks[|decks| - 1];
      DecksKeptPresent(st, init, now);
      var st1 := ImportDecksKeepingIds(st, init, now).store;
      var st2 := ImportDeckKeepingId(st1, last, now).store;
      forall k | Keyed.HasKey(st1.decks, k, Database.DeckKey) ensures Keyed.HasKey(st2.decks, k, Database.DeckKey) {
        DeckStaysStored(st1, last, k, now);
      }
      DeckStaysStored(st1, last, last.id, now);
      forall d | d in decks ensures Keyed.HasKey(st2.decks, d.id, Database.DeckKey) {
        if d != last {
          var k :| 0 <= k < |decks| && decks[k] == d;
          assert d in init;
        }
      }
    }
  }

  /** One deck step of the intended import keeps every stored deck and
      stores the file's deck. */
  lemma DeckStaysStored(st: Database.Store, deck: Deck, k: nat, now: Timestamp)
    requires Keyed.HasKey(st.decks, k, Database.DeckKey) || k == deck.id
    ensures Keyed.HasKey(ImportDeckKeepingId(st, deck, now).store.decks, k, Database.DeckKey)
  {
    if Keyed.Find(st.decks, deck.id, Database.DeckKey).None? {
      var d := Deck(deck.id, deck.name, deck.description, now, now);
      Keyed.FindUpsert(st.decks, d, k, Database.DeckKey);
    }
  }

  /** A card step keeps the decks and adds no orphan, provided the card's
      deck is stored. */
  lemma ImportCardKeepsAttached(st: Database.Store, card: Card, now: Timestamp)
    requires NoOrphans(st) && Keyed.HasKey(st.decks, card.deckId, Database.DeckKey)
    ensures var st' := ImportCard(st, card, now).store; st'.decks == st.decks && NoOrphans(st')
  {
    match Keyed.Find(Database.CardsOfDeck(st.cards, card.deckId), card.id, Database.CardKey)
    case None =>
    case Some(existing) =>
      if card.updatedAt > existing.updatedAt {
        match Database.PatchCard(st, card.id, ImportPatch(card), now)
        case Ok(st') =>
          var stored := Keyed.Find(st.cards, card.id, Database.CardKey).value;
          var merged := Database.Merge(stored, ImportPatch(card), card.id, now);
          assert merged.deckId == stored.deckId;
          assert forall c :: c in st'.cards ==> c == merged || c in st.cards;
        case Err(_) =>
      }
  }

  lemma {:induction false} ImportCardsKeepAttached(st: Database.Store, cards: seq<Card>, now: Timestamp)
    requires NoOrphans(st)
    requires forall c :: c in cards ==> Keyed.HasKey(st.decks, c.deckId, Database.DeckKey)
    ensures var st' := ImportCards(st, cards, now).store; st'.decks == st.decks && NoOrphans(st')
  {
    if cards != [] {
      var init := cards[..|cards| - 1];
      assert forall c :: c in init ==> c in cards;
      ImportCardsKeepAttached(st, init, now);
      var st1 := ImportCards(st, init, now).store;
      ImportCardKeepsAttached(st1, cards[|cards| - 1], now);
    }
  }

  /** Restoring with the file's deck ids kept: a store without orphans stays
      without orphans, as long as every card of the file names a deck of the
      file — the backup `exportAllData` writes is of that kind. */
  lemma RestoreKeepingIdsAttaches(st: Database.Store, decks: seq<Deck>, cards: seq<Card>, now: Timestamp)
    requires NoOrphans(st)
    requires forall c :: c in cards ==> exists d :: d in decks && d.id == c.deckId
    ensures NoOrphans(ImportAllKeepingIds(st, decks, cards, now).store)
  {
    var st0 := Database.SupplyPast(st, FileIdBound(decks, cards));
    DecksKeptPresent(st0, decks, now);
    var st1 := ImportDecksKeepingIds(st0, decks, now).store;
    forall c | c in st1.cards ensures Keyed.HasKey(st1.decks, c.deckId, Database.DeckKey) {
      assert c in st.cards;
    }
    forall c | c in cards ensures Keyed.HasKey(st1.decks, c.deckId, Database.DeckKey) {
      var d :| d in decks && d.id == c.deckId;
    }
    ImportCardsKeepAttached(st1, cards, now);
  }
}
