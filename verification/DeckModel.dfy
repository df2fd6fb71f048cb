/** The deck entity (`deckUtils` and `useDeckModel`): the Russian plural of
    "card", the per-deck counters, deck-name validation, and the deck list
    with its counters, kept in step with the store. */
module DeckModel {
  import opened Wrappers
  import opened CardTypes
  import opened Text
  import Seqs
  import Keyed
  import Database

  // ------------------------------------------------------------ deckUtils

  /** `getCardWord`: the form of "карточка" that agrees with `count`
      (counts are never negative). */
  function GetCardWord(count: nat): string
  {
    if count % 10 == 1 && count % 100 != 11 then "карточка"
    else if count % 10 in {2, 3, 4} && count % 100 !in {12, 13, 14} then "карточки"
    else "карточек"
  }

  /** The Russian rule: the singular after 1, 21, 31, … but not 11; the
      paucal after 2–4, 22–24, … but not 12–14; the genitive plural
      otherwise. Each count gets exactly one of the three forms. */
  lemma CardWordRule(count: nat)
    ensures GetCardWord(count) == "карточка" <==> count % 10 == 1 && count % 100 != 11
    ensures GetCardWord(count) == "карточки" <==> 2 <= count % 10 <= 4 && !(12 <= count % 100 <= 14)
    ensures GetCardWord(count) == "карточек" <==>
              !(count % 10 == 1 && count % 100 != 11) && !(2 <= count % 10 <= 4 && !(12 <= count % 100 <= 14))
  {
    assert "карточка" != "карточки" by { assert "карточка"[7] != "карточки"[7]; }
    assert "карточка" != "карточек" by { assert "карточка"[6] != "карточек"[6]; }
    assert "карточки" != "карточек" by { assert "карточки"[6] != "карточек"[6]; }
  }

  /** The form depends on the last two digits only. */
  lemma CardWordPeriodic(count: nat)
    ensures GetCardWord(count + 100) == GetCardWord(count)
  {
    assert (count + 100) % 10 == count % 10;
    assert (count + 100) % 100 == count % 100;
  }

  lemma CardWordExamples()
    ensures GetCardWord(1) == "карточка" && GetCardWord(21) == "карточка"
    ensures GetCardWord(3) == "карточки" && GetCardWord(104) == "карточки"
    ensures GetCardWord(0) == "карточек" && GetCardWord(11) == "карточек" && GetCardWord(13) == "карточек"
  {
  }

  /** The counters shown for a deck. */
  datatype DeckStatsView = DeckStatsView(total: int, newCount: int, due: int, learned: int)

  /** `formatDeckStats`: the learned cards are the rest. */
  function FormatDeckStats(stats: Database.CardCount): (v: DeckStatsView)
    ensures v.total == stats.total && v.newCount == stats.newCount && v.due == stats.due
    ensures v.newCount + v.due + v.learned == v.total
  {
    DeckStatsView(stats.total, stats.newCount, stats.due, stats.total - stats.newCount - stats.due)
  }

  /** A card of the deck in the learned bucket. */
  function LearnedIn(deckId: Id, now: Timestamp): Card -> bool
  {
    (c: Card) => c.deckId == deckId && StatusOf(c, now) == Learned
  }

  /** On the counters the store reports for a deck, `learned` is exactly
      the number of the deck's cards that are neither new nor due, so it is
      never negative. */
  lemma {:induction false} LearnedCountsLearned(cards: seq<Card>, deckId: Id, now: Timestamp)
    ensures FormatDeckStats(Database.CountCards(cards, Some(deckId), now)).learned
            == |Seqs.Filter(cards, LearnedIn(deckId, now))|
  {
    if cards != [] {
      var i := |cards| - 1;
      LearnedCountsLearned(cards[..i], deckId, now);
      Database.CountCardsSnoc(cards, i, Some(deckId), now);
      Seqs.FilterSnoc(cards, i, LearnedIn(deckId, now));
      assert cards[..i + 1] == cards;
    }
  }

  /** The longest deck name, after trimming. */
  const MAX_NAME_LENGTH: int := 100

  datatype NameError = NameRequired | NameTooLong

  function NameMessage(e: NameError): string
  {
    match e
    case NameRequired => "Название колоды обязательно"
    case NameTooLong => "Название слишком длинное (максимум 100 символов)"
  }

  datatype NameCheck = NameAccepted | NameRejected(error: NameError)

  /** `validateDeckName`: the trimmed name must have 1 to 100 UTF-16 code units. */
  function ValidateDeckName(name: string): (v: NameCheck)
    ensures v.NameAccepted? <==> 1 <= Utf16Length(Trim(name)) <= MAX_NAME_LENGTH
    ensures Trim(name) == [] ==> v == NameRejected(NameRequired)
    ensures Utf16Length(Trim(name)) > MAX_NAME_LENGTH ==> v == NameRejected(NameTooLong)
  {
    var trimmedName := Trim(name);
    if trimmedName == [] then NameRejected(NameRequired)
    else if Utf16Length(trimmedName) > MAX_NAME_LENGTH then NameRejected(NameTooLong)
    else NameAccepted
  }

  /** A name of white space only is refused as missing. */
  lemma BlankNameRejected(name: string)
    requires forall k :: 0 <= k < |name| ==> IsWhitespace(name[k])
    ensures ValidateDeckName(name) == NameRejected(NameRequired)
  {
    BlankIffAllWhitespace(name);
  }

  /** `description?.trim() || undefined`: an absent or blank description is
      dropped, any other is kept trimmed. */
  function NormalizeDescription(description: Option<string>): (r: Option<string>)
    ensures r.None? <==> description.None? || forall k :: 0 <= k < |description.value| ==> IsWhitespace(description.value[k])
    ensures r.Some? ==> r.value == Trim(description.value) && r.value != []
  {
    if description.None? then None
    else
      BlankIffAllWhitespace(description.value);
      var d := Trim(description.value);
      if d == [] then None else Some(d)
  }

  // ------------------------------------------------------------ the deck list

  /** The counters `loadDecks` gathers, one entry per deck id. */
  function StatsMap(decks: seq<Deck>, cards: seq<Card>, now: Timestamp): map<Id, Database.CardCount>
  {
    if decks == [] then map[]
    else
      var d := decks[|decks| - 1];
      StatsMap(decks[..|decks| - 1], cards, now)[d.id := Database.CountCards(cards, Some(d.id), now)]
  }

  /** Every listed deck has an entry and nothing else does; each entry holds
      the store's counters for that deck. */
  lemma StatsMapSpec(decks: seq<Deck>, cards: seq<Card>, now: Timestamp)
    ensures var m := StatsMap(decks, cards, now);
      && m.Keys == (set d | d in decks :: d.id)
      && (forall id :: id in m ==> m[id] == Database.CountCards(cards, Some(id), now))
  {
    StatsMapKeys(decks, cards, now);
    StatsMapValues(decks, cards, now);
  }

  lemma {:induction false} StatsMapKeys(decks: seq<Deck>, cards: seq<Card>, now: Timestamp)
    ensures StatsMap(decks, cards, now).Keys == (set d | d in decks :: d.id)
  {
    if decks != [] {
      var init := decks[..|decks| - 1];
      var last := decks[|decks| - 1];
      StatsMapKeys(init, cards, now);
      assert decks == init + [last];
      assert (set d | d in decks :: d.id) == (set d | d in init :: d.id) + {last.id} by {
        forall x | x in decks ensures x in init || x == last {
        }
      }
    }
  }

  lemma {:induction false} StatsMapValues(decks: seq<Deck>, cards: seq<Card>, now: Timestamp)
    ensures var m := StatsMap(decks, cards, now);
      forall id :: id in m ==> m[id] == Database.CountCards(cards, Some(id), now)
  {
    if decks != [] {
      StatsMapValues(decks[..|decks| - 1], cards, now);
    }
  }

  lemma StatsMapSnoc(decks: seq<Deck>, i: nat, cards: seq<Card>, now: Timestamp)
    requires i < |decks|
    ensures StatsMap(decks[..i + 1], cards, now)
            == StatsMap(decks[..i], cards, now)[decks[i].id := Database.CountCards(cards, Some(decks[i].id), now)]
  {
    assert decks[..i + 1][..i] == decks[..i];
  }

  /** Why `createDeck` fails: the validation message, or the store's error. */
  datatype CreateDeckError = InvalidName(reason: NameError) | StoreError(cause: Database.DbError)

  /** The deck list (`useDeckModel`). */
  class DeckList {
    var decks: seq<Deck>
    var deckStats: map<Id, Database.CardCount>
    var loading: bool

    constructor ()
      ensures decks == [] && deckStats == map[] && loading
    {
      decks := [];
      deckStats := map[];
      loading := true;
    }

    /** The list shows the store's decks and their counters. */
    predicate InStep(db: Database.MnemozaDatabase, now: Timestamp)
      reads this, db
    {
      decks == db.decks && deckStats == StatsMap(db.decks, db.cards, now)
    }

    /** `loadDecks`: fetch the decks, then the counters of each in turn. */
    method LoadDecks(db: Database.MnemozaDatabase, now: Timestamp)
      modifies this
      ensures !loading
      ensures db.initialized ==> InStep(db, now)
      ensures !db.initialized ==> decks == old(decks) && deckStats == old(deckStats)
    {
      var loaded := db.GetDecks();
      if loaded.Err? {
        loading := false;
        return;
      }
      var loadedDecks := loaded.value;
      decks := loadedDecks;
      var stats := map[];
      for i := 0 to |loadedDecks|
        invariant stats == StatsMap(loadedDecks[..i], db.cards, now)
        invariant decks == db.decks
      {
        StatsMapSnoc(loadedDecks, i, db.cards, now);
        var count := db.GetCardCount(Some(loadedDecks[i].id), now);
        stats := stats[loadedDecks[i].id := count.value];
      }
      assert loadedDecks[..|loadedDecks|] == loadedDecks;
      deckStats := stats;
      loading := false;
    }

    /** `createDeck`: an invalid name is refused before the store is
        touched; otherwise the deck is stored with the trimmed name and the
        normalised description, and the list reloaded. */
    method CreateDeck(db: Database.MnemozaDatabase, name: string, description: Option<string>, now: Timestamp)
      returns (r: Result<Deck, CreateDeckError>)
      requires db.Valid()
      modifies this, db
      ensures db.Valid() && db.initialized == old(db.initialized)
      ensures ValidateDeckName(name).NameRejected? ==>
        r == Err(InvalidName(ValidateDeckName(name).error))
        && db.State() == old(db.State()) && decks == old(decks) && deckStats == old(deckStats) && loading == old(loading)
      ensures ValidateDeckName(name).NameAccepted? && !db.initialized ==>
        && r == Err(StoreError(Database.NotInitialized)) && db.State() == old(db.State())
        && decks == old(decks) && deckStats == old(deckStats) && loading == old(loading)
      ensures ValidateDeckName(name).NameAccepted? && db.initialized ==>
        && r == Ok(Database.NewDeck(old(db.State()), Trim(name), NormalizeDescription(description), now))
        && db.State() == Database.AddDeck(old(db.State()), Trim(name), NormalizeDescription(description), now)
        && r.value in decks && InStep(db, now) && !loading
    {
      var validation := ValidateDeckName(name);
      if validation.NameRejected? {
        return Err(InvalidName(validation.error));
      }
      var created := db.CreateDeck(Trim(name), NormalizeDescription(description), now);
      if created.Err? {
        return Err(StoreError(created.error));
      }
      decks := decks + [created.value];
      LoadDecks(db, now);
      return Ok(created.value);
    }

    /** `deleteDeck`: delete each card the store lists for the deck, then
        the deck, and reload. It reports failure (only possible before the
        store is opened) as `false`. */
    method DeleteDeck(db: Database.MnemozaDatabase, deckId: Id, now: Timestamp) returns (ok: bool)
      requires db.Valid()
      modifies this, db
      ensures db.Valid() && db.initialized == old(db.initialized)
      ensures ok <==> old(db.initialized)
      ensures !ok ==>
        db.State() == old(db.State()) && decks == old(decks) && deckStats == old(deckStats) && loading == old(loading)
      ensures ok ==>
        && db.State() == Database.DropDeck(old(db.State()), deckId)
        && InStep(db, now) && (forall d :: d in decks ==> d.id != deckId) && !loading
    {
      var listed := db.GetCardsByDeck(deckId);
      if listed.Err? {
        return false;
      }
      ghost var st0 := db.State();
      DeleteListed(db, listed.value);
      Database.DeckIdsAmong(st0.cards, deckId);
      CascadeThenDrop(st0, deckId);
      var _ := db.DeleteDeck(deckId);
      Database.DropDeckSpec(st0, deckId);
      decks := Seqs.Filter(decks, (d: Deck) => d.id != deckId);
      LoadDecks(db, now);
      DroppedDeckUnlisted(db.decks, deckId);
      return true;
    }
  }

  /** The card loop of `deleteDeck`: delete each listed card by id. */
  method DeleteListed(db: Database.MnemozaDatabase, doomed: seq<Card>)
    requires db.Valid() && db.initialized
    modifies db
    ensures db.Valid() && db.initialized
    ensures db.State() == old(db.State()).(cards := Seqs.Filter(old(db.cards), Database.NotAmong(Database.IdsOf(doomed))))
  {
    ghost var st0 := db.State();
    assert doomed[..0] == [];
    assert Database.IdsOf(doomed[..0]) == {};
    Seqs.FilterAll(st0.cards, Database.NotAmong({}));
    for i := 0 to |doomed|
      invariant db.Valid() && db.initialized
      invariant db.State() == st0.(cards := Seqs.Filter(st0.cards, Database.NotAmong(Database.IdsOf(doomed[..i]))))
    {
      Database.IdsOfSnoc(doomed, i);
      Database.RemoveAmong(st0.cards, Database.IdsOf(doomed[..i]), doomed[i].id);
      var _ := db.DeleteCard(doomed[i].id);
    }
    assert doomed[..|doomed|] == doomed;
  }

  /** Deleting the deck's cards one by one and then the deck leaves the
      store as deleting the deck alone does. */
  lemma CascadeThenDrop(st: Database.Store, deckId: Id)
    ensures var rest := Database.CardsNotOfDeck(st.cards, deckId);
      Database.DropDeck(st.(cards := rest), deckId) == Database.DropDeck(st, deckId)
  {
    var rest := Database.CardsNotOfDeck(st.cards, deckId);
    assert forall c :: c in rest ==> c.deckId != deckId;
    Seqs.FilterAll(rest, (c: Card) => c.deckId != deckId);
  }

  lemma DroppedDeckUnlisted(decks: seq<Deck>, deckId: Id)
    requires Keyed.Find(decks, deckId, Database.DeckKey) == None
    ensures forall d :: d in decks ==> d.id != deckId
  {
  }
}
