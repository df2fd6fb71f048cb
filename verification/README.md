# Mnemoza core in Dafny

Mnemoza is a spaced-repetition flashcard application. A learner keeps
decks of two-sided cards. Each card carries its own schedule: an interval
in days, a repetition count, an ease factor and the date of its next
review. This project models the logic under the user interface:

- **Scheduler** (`Scheduler`). This is the two-phase rule of `MnemozaAlgorithm`.
  - Learning cards move in fixed steps of 1 minute, 10 minutes, 1 day or 4 days.
  - Review cards follow an SM-2-like rule with an ease-factor floor of 1.3 and
    whole-day intervals. AGAIN demotes them to learning.
  - It also covers the interval labels on the answer buttons and the
    new/due/learned statistics.
- **Card store** (`Database`). This is `MnemozaDatabase` over an in-memory
  store: a deck table and a card table, each kept in key order, plus a
  fresh-id supply.
  - It covers the selection queries (`getNewCards`, `getDueCards`,
    `getCardCount`) and the field merge of `updateCardFields`.
  - It covers the cascade of `deleteDeck`, and the "not initialized" failure
    of every operation before `init`.
- **Study session** (`StudySession`). The queue is due cards followed by at
  most 20 new cards.
  - A review advances the position, keeps the running statistics and is
    guarded against overlapping reviews.
  - It covers the summary and progress arithmetic.
- **Card and deck entities** (`CardModel`, `DeckModel`).
  - Content and name validation, the status badge, the relative date label,
    the search filter and the Russian plural of "card".
  - The validated create, update and delete actions, which refresh their
    lists from the store.
- **Backup and restore** (`BackupRestore`).
  - Export gathers every deck's cards.
  - Import creates missing decks and creates missing cards.
  - Import updates an existing card only when the file's copy is strictly
    newer (last writer wins on `updatedAt`).
- **Card table** (`CardsTable`, `TableModel`). The search filter, paging by
  tens, the status badge, the relative "next review" label, and the table's
  search and sort state.
- **Navigation** (`AppModel`) and the **event bus** (`Events`).

Conventions:

- The clock is a parameter `now`. Timestamps are integer milliseconds.
- Ids are natural numbers from the store's `nextId` supply. They stand in for
  generated UUIDs. A UUID never equals an id written anywhere else, so before
  an import writes anything the supply is moved past every id the backup file
  names (`Database.SupplyPast`, through `MnemozaDatabase.ReserveIds`). The
  source has no such step; it is what makes counter ids behave like UUIDs.
- Intervals and ease factors are exact `real`s. `Math.round` is
  `Numbers.Round`, i.e. floor(x + 1/2).
- Asynchronous store calls are ordinary method calls on a `MnemozaDatabase`
  object.
- A thrown error is an `Err` result.
- The supporting modules are:
  - `Seqs`: filtering, prefixes and subsequences.
  - `Keyed`: sequences kept in ascending key order, with find, upsert and remove.
  - `Numbers`: rounding, ceiling division, decimal rendering.
  - `Text`: `trim`, `toLowerCase`, `includes`.

## Model

| member | source | states |
|---|---|---|
| Scheduler.CreateNewCard | src/shared/mnemoza-algorithm/model.ts:21-37 | A fresh card keeps the given id, sides and deck. It is in the learning phase with interval 1, repetitions 0 and ease 2.5. Its next review, creation and update times are all `now`. It satisfies the scheduling invariant. |
| Scheduler.UpdateCard | src/shared/mnemoza-algorithm/model.ts:39-133 | Only interval, repetitions, ease, next review date, `updatedAt` (= now) and `isNew` change; id, sides, deck and `createdAt` are copied. The result is in learning iff the answer was AGAIN or a learning card answered HARD. A learning result has 0 repetitions. The learning phase never changes the ease. An ease at or above 1.3 stays at or above 1.3. |
| Scheduler.LearningPhase | src/shared/mnemoza-algorithm/model.ts:48-80 | For a learning card, AGAIN gives 1/1440 day and HARD gives 10/1440 day; both set 0 repetitions and stay in learning. GOOD gives 1 day and EASY gives 4 days; both set 1 repetition and leave learning. The next review date is now plus that step, and the ease is unchanged. |
| Scheduler.ReviewAgain | src/shared/mnemoza-algorithm/model.ts:84-94 | A review card answered AGAIN gets interval 1/1440, repetitions 0 and ease max(ease − 0.2, 1.3). It goes back to learning and is due one minute later. |
| Scheduler.ReviewHard | src/shared/mnemoza-algorithm/model.ts:96-104 | HARD gives interval max(1, round(interval·1.2)) and ease max(ease − 0.1, 1.3). Repetitions grow by one and the card stays in review. |
| Scheduler.ReviewGood | src/shared/mnemoza-algorithm/model.ts:106-110 | GOOD gives interval round(interval·ease) and leaves the ease as it was. Repetitions grow by one and the card stays in review. |
| Scheduler.ReviewEasy | src/shared/mnemoza-algorithm/model.ts:112-117 | EASY gives interval round(interval·ease·1.3) + 4 and ease + 0.1. Repetitions grow by one and the card stays in review. |
| Scheduler.NextReviewAfterInterval | src/shared/mnemoza-algorithm/model.ts:53-116 | In every phase and for every answer, the next review comes exactly `interval` days (in milliseconds) after `now`. |
| Scheduler.ReviewRounding | src/shared/mnemoza-algorithm/model.ts:96-117 | For a whole interval i ≥ 1 and ease ≥ 1.3, the rounded HARD, GOOD and EASY products are ordered: i ≤ HARD ≤ GOOD < EASY. |
| Scheduler.ReviewIntervalsGrow | src/shared/mnemoza-algorithm/model.ts:96-117 | For a well-scheduled review card, the three passing answers give whole intervals with interval ≤ HARD ≤ GOOD < EASY. |
| Scheduler.UpdateKeepsWellScheduled | src/shared/mnemoza-algorithm/model.ts:39-133 | The invariant "ease ≥ 1.3, interval ≥ 0, and a review card has a whole interval of at least one day" is preserved by every answer. |
| Scheduler.WorkedExample | src/shared/mnemoza-algorithm/model.ts:21-133 | Example, one fixed input, not a general property. One history: GOOD, GOOD, EASY, AGAIN from a fresh card gives intervals 1, 3 and 14 days, then demotion with ease 2.4. |
| Scheduler.SpanApproximates | src/shared/mnemoza-algorithm/model.ts:175-190 | The label ladder (minutes, "1 день", days, 30-day months, 365-day years) reads back to the interval within half a unit. Whole day counts below 30 read back exactly. |
| Scheduler.PreviewAgreesWithUpdate | src/shared/mnemoza-algorithm/model.ts:150-191 | Each button label names the interval `updateCard` would give for that answer. This covers "1м" on demotion and the fixed learning labels. The one exception is the learning EASY label "4 дня", worded apart from the ladder's "4 дн.". |
| Scheduler.DueBucketIffDue | src/shared/mnemoza-algorithm/model.ts:193-195 | A card is in the "due" bucket iff it is not new and `isDue` holds. It is in the "new" bucket iff `isNew`. |
| Scheduler.GetCardStats | src/shared/mnemoza-algorithm/model.ts:197-217 | The loop's counters are the bucket sizes. `new` has priority over due. new + due + learned = total = the number of cards. |
| CardTypes.StatusPartition | src/shared/mnemoza-algorithm/model.ts:206-214 | Every card lands in exactly one of new, due and learned, so the three counts add up to the list length. |
| Numbers.Round | src/shared/mnemoza-algorithm/model.ts:97-113 | `Math.round` gives an integer within half of its argument, halves rounding up. |
| Numbers.CeilDiv | src/entities/card/ui/CardsTable.tsx:57-59 | `Math.ceil(a / b)` is the integer r with (r − 1)·b < a ≤ r·b. |
| Database.MnemozaDatabase.constructor | src/shared/database/model.ts:18-19 | A handle that is not open, on empty stores, with the id supply at 0. |
| Database.MnemozaDatabase.Init | src/shared/database/model.ts:21-49 | `init` opens the handle and leaves the stored data as it was. |
| Database.MnemozaDatabase.EnsureDb | src/shared/database/model.ts:51-56 | It fails with "not initialized" exactly when `init` has not run. |
| Database.AddDeckSpec | src/shared/database/model.ts:59-70 | A created deck gets an id that no deck or card has. It keeps the given name and description, and has `createdAt = updatedAt = now`. It is found under that id, every other id finds what it found before, and the store stays valid. |
| Database.MnemozaDatabase.CreateDeck | src/shared/database/model.ts:59-70 | Before `init` it fails and changes nothing. Otherwise it returns the new deck and the store is `AddDeck` of the old one. |
| Database.MnemozaDatabase.GetDecks | src/shared/database/model.ts:72-75 | It fails iff the handle is not open. Otherwise it returns the deck table. |
| Database.MnemozaDatabase.GetDeck | src/shared/database/model.ts:77-80 | It fails iff the handle is not open. A returned deck is stored and has the id asked for. No result means no deck has that id. |
| Database.MnemozaDatabase.UpdateDeck | src/shared/database/model.ts:82-86 | Before `init` it fails and changes nothing. Otherwise it puts the deck with `updatedAt = now`. |
| Database.PutDeckSpec | src/shared/database/model.ts:82-86 | A put stores the deck under its id and leaves every other id and all cards as they were. The store stays valid. |
| Database.MnemozaDatabase.DeleteDeck | src/shared/database/model.ts:88-97 | Before `init` it fails and changes nothing. Otherwise the new store is `DropDeck`: the deck is gone, and so is every card the `deckId` index listed for it. |
| Database.DropDeckSpec | src/shared/database/model.ts:88-97 | After deleting a deck, that id finds no deck and other deck ids find what they did before. The cards left are exactly the old cards of other decks. |
| Database.MnemozaDatabase.DeleteEach | src/shared/database/model.ts:94-96 | The cascade loop leaves exactly the cards whose id is not among the listed cards. Decks are untouched. |
| Database.DeckIdsAmong | src/shared/database/model.ts:93-96 | With unique ids, deleting every card the index lists for a deck by id leaves exactly the cards of the other decks. |
| Database.AddCardSpec | src/shared/database/model.ts:100-113 | A created card gets an id no deck or card has and `createdAt = updatedAt = now`. Every other field comes from the draft. It is found under that id, other ids are unchanged, and the store stays valid. |
| Database.MnemozaDatabase.CreateCard | src/shared/database/model.ts:100-113 | Before `init` it fails and changes nothing. Otherwise it returns the new card and the store is `AddCard` of the old one. |
| Database.MnemozaDatabase.GetCard | src/shared/database/model.ts:115-128 | It fails iff the handle is not open. Otherwise it returns the card stored under the id, or nothing when no card has it. |
| Database.MnemozaDatabase.GetCardsByDeck | src/shared/database/model.ts:130-141 | It fails iff the handle is not open. Otherwise it returns the cards of the deck in key order, each one stored and of that deck. |
| Database.NewCardsOfSpec | src/shared/database/model.ts:143-167 | `getNewCards` returns at most `limit` cards, each stored, new and of the deck when one is given. The result is a prefix of all matching cards in store order. When fewer than `limit` come back, it is all of them. A limit of 0 gives nothing. |
| Database.NewCardsCutOff | src/shared/database/model.ts:151-164 | The scan's stopping rule (store exhausted, or `limit` reached) yields exactly the specified result. No matching card before the cut-off is skipped. |
| Database.MnemozaDatabase.GetNewCards | src/shared/database/model.ts:143-167 | The cursor loop returns exactly `NewCardsOf` of the store, or fails iff the handle is not open. |
| Database.SortByDate | src/shared/database/model.ts:194 | The sort gives a permutation of its input that is non-decreasing in `nextReviewDate`. |
| Database.InsertSorted | src/shared/database/model.ts:194 | Inserting one card into a date-sorted list keeps it sorted. |
| Database.DueCardsOfSpec | src/shared/database/model.ts:169-195 | `getDueCards` returns exactly the stored cards that are not new, have `nextReviewDate ≤ now` and match the deck. It is sorted by date and is a permutation of the filtered cards. |
| Database.MnemozaDatabase.GetDueCards | src/shared/database/model.ts:169-195 | The cursor loop returns exactly `DueCardsOf` of the store, or fails iff the handle is not open. |
| Database.PutCardSpec | src/shared/database/model.ts:197-201 | A put stores the card under its id and leaves every other id and all decks as they were. The store stays valid. |
| Database.MnemozaDatabase.PutCardRecord | src/shared/database/model.ts:200 | `db.put('cards', …)`: the store becomes `PutCard` of the old one. |
| Database.MnemozaDatabase.PutDeckRecord | src/shared/database/model.ts:85 | `db.put('decks', …)`: the store becomes `PutDeck` of the old one. |
| Database.MnemozaDatabase.UpdateCard | src/shared/database/model.ts:197-201 | Before `init` it fails and changes nothing. Otherwise it puts the card with `updatedAt = now`. |
| Database.Merge | src/shared/database/model.ts:210-215 | The merged record always has the requested id and `updatedAt = now`. |
| Database.MergeSpec | src/shared/database/model.ts:210-215 | A field present in the patch wins and an absent one keeps the stored value. An empty patch only refreshes `updatedAt`. |
| Database.PatchCardSpec | src/shared/database/model.ts:203-218 | It fails with "card not found" iff no card has the id. Otherwise that id finds the merged record, every other id finds what it did before, decks and the supply are unchanged, and the store stays valid. |
| Database.MnemozaDatabase.UpdateCardFields | src/shared/database/model.ts:203-218 | Before `init` it fails and changes nothing. A missing card is an error with the store unchanged. Otherwise the store is the patched one. |
| Database.DropCardSpec | src/shared/database/model.ts:220-223 | A deleted card is gone. Every other card and every deck is as before. |
| Database.MnemozaDatabase.DeleteCard | src/shared/database/model.ts:220-223 | Before `init` it fails and changes nothing. Otherwise the store is `DropCard` of the old one. |
| Database.CountCardsSnoc | src/shared/database/model.ts:236-251 | One more card raises `total` when it is of the deck. It then raises `new` if it is new, else `due` if its date has come. |
| Database.CountCardsBound | src/shared/database/model.ts:225-254 | new + due ≤ total: a past-due new card is counted only as new. |
| Database.MnemozaDatabase.GetCardCount | src/shared/database/model.ts:225-254 | The cursor loop returns exactly `CountCards` of the store, with new + due ≤ total, or fails iff the handle is not open. |
| StudySession.CalculateProgress | src/features/study-session/model.ts:40-42 | Progress is 0 for an empty queue. Otherwise progress × total = index × 100. |
| StudySession.ProgressBounds | src/features/study-session/model.ts:40-42 | While the index is inside the queue, progress lies in [0, 100). |
| StudySession.FormatTime | src/features/study-session/model.ts:35-38 | Under a minute gives "меньше минуты". Otherwise it is the whole minutes elapsed followed by " мин.". |
| StudySession.GetSessionSummary | src/features/study-session/model.ts:44-56 | Accuracy is round(correct / studied · 100), or 0 when nothing was studied. Incorrect answers are studied − correct, and the totals are copied. |
| StudySession.AccuracyBounds | src/features/study-session/model.ts:44-56 | When correct ≤ studied, accuracy lies in 0..100 and incorrect is non-negative. All answers correct gives exactly 100. |
| StudySession.SummaryExample | src/features/study-session/model.ts:44-56 | Example, one fixed input, not a general property: 4 correct out of 5 over two minutes gives 80 %, 1 incorrect, "2 мин.". |
| StudySession.ShouldShowIffNotLearned | src/features/study-session/model.ts:58-60 | A card is shown iff it is new or its review date has come, i.e. iff it is not in the learned bucket. |
| StudySession.StudyQueueSpec | src/features/study-session/model.ts:77-82 | The queue is the deck's due cards (date-sorted, exactly those due) followed by at most 20 of its new cards. |
| StudySession.StudyQueueShown | src/features/study-session/model.ts:77-82 | Every queued card is a stored card of the deck that `shouldShowCard` accepts. |
| StudySession.Session.constructor | src/features/study-session/model.ts:63-73 | The session starts with an empty queue at index 0, with the answer hidden, loading set, no review running, and zero statistics started at `now`. |
| StudySession.Session.CurrentCard | src/features/study-session/model.ts:145 | There is a current card iff the index is inside the queue, and it is a queued card. |
| StudySession.Session.CurrentCardExists | src/features/study-session/model.ts:145-160 | A session with cards always has a current card and progress in [0, 100). |
| StudySession.Session.LoadStudyCards | src/features/study-session/model.ts:75-97 | On success the queue is `StudyQueue` of the store. A non-empty queue restarts at index 0 with the answer hidden. A failure keeps the old queue. Loading ends in every case. |
| StudySession.Session.HandleReview | src/features/study-session/model.ts:103-139 | It does nothing while a review runs or the queue is empty. Otherwise it stores the rescheduled card, counts the card as studied, and counts it correct iff GOOD or EASY. It then advances the index and hides the answer, or reports completion at the last card. A store failure returns the error with statistics and position untouched. The guard is always cleared afterwards. |
| StudySession.Session.ShowCardAnswer | src/features/study-session/model.ts:141-143 | The answer becomes visible and nothing else changes. |
| CardModel.ValidateCardContent | src/entities/card/model.ts:23-40 | Content is accepted iff both trimmed sides have 1..1000 UTF-16 code units (JavaScript's `length`). A blank side is reported first, then an over-long front, then an over-long back. |
| Text.Utf16LengthBmp | src/entities/card/model.ts:31-36 | `length` counts UTF-16 code units. When every character is in the Basic Multilingual Plane it equals the number of characters; in general it lies between that number and twice it. |
| Text.EmojiCountsTwice | src/entities/card/model.ts:31-36 | Example, one fixed input: an emoji is one character and two code units. |
| CardModel.BlankSideRejected | src/entities/card/model.ts:24-29 | A side made only of white space is rejected as missing. |
| CardModel.GetCardStatus | src/entities/card/model.ts:42-68 | The badge reads "Новая" for a new card, else "К повторению" once the date has come, else "Изучена". |
| CardModel.BadgeIdentifiesStatus | src/entities/card/model.ts:42-68 | Two cards get the same badge text iff they are in the same bucket. |
| CardModel.GetNextReviewText | src/entities/card/model.ts:70-77 | A date not after now is "Сегодня", and up to a day ahead is "Завтра". Later dates give "d дн." with d ≥ 2 the days rounded up. |
| CardModel.FilterCards | src/entities/card/model.ts:79-86 | A blank term returns the list unchanged. Otherwise the result is an order-preserving sublist holding exactly the cards whose lowercased front or back contains the lowercased term. |
| CardModel.CardList.constructor | src/entities/card/model.ts:89-92 | The list starts empty with zero counters and loading set. |
| CardModel.CardList.LoadCards | src/entities/card/model.ts:94-109 | On success the list and counters are the deck's cards and `getCardCount` of the store. On failure they stay. Loading ends in every case. |
| CardModel.CardList.CreateCard | src/entities/card/model.ts:126-145 | Invalid content is rejected with its reason before the store is touched. Otherwise a fresh card with the trimmed sides is added to the deck, returned, and listed after the refresh. A store failure is passed on with the store, the list, the counts and the loading flag unchanged. |
| CardModel.CardList.UpdateCard | src/entities/card/model.ts:147-158 | The card is put with `updatedAt = now` and the list is refreshed. A store failure is passed on with nothing changed, the loading flag included. |
| CardModel.CardList.DeleteCard | src/entities/card/model.ts:160-172 | The card is deleted and the refreshed list no longer holds it. A store failure is passed on with nothing changed, the loading flag included. |
| CardModel.CreatedCardListed | src/entities/card/model.ts:134-137 | A stored card is among the cards the index lists for its deck. |
| CardModel.DeletedCardUnlisted | src/entities/card/model.ts:163-165 | A card id absent from the store is absent from every deck's listing. |
| DeckModel.CardWordRule | src/entities/deck/model.ts:22-30 | "карточка" iff n mod 10 = 1 and n mod 100 ≠ 11. "карточки" iff n mod 10 ∈ {2,3,4} and n mod 100 ∉ {12,13,14}. "карточек" otherwise. |
| DeckModel.CardWordPeriodic | src/entities/deck/model.ts:22-30 | The word depends only on the count modulo 100. |
| DeckModel.CardWordExamples | src/entities/deck/model.ts:22-30 | Examples, fixed inputs, not a general property: 1 and 21 take "карточка"; 3 and 104 take "карточки"; 0, 11 and 13 take "карточек". |
| DeckModel.FormatDeckStats | src/entities/deck/model.ts:32-37 | Total, new and due are copied, and learned = total − new − due, so the four add up. |
| DeckModel.LearnedCountsLearned | src/entities/deck/model.ts:32-37 | The derived `learned` is exactly the number of the deck's cards that are neither new nor due. |
| DeckModel.ValidateDeckName | src/entities/deck/model.ts:39-48 | A name is accepted iff its trimmed length is 1..100 UTF-16 code units. A blank name is "required" and a longer one "too long". |
| DeckModel.BlankNameRejected | src/entities/deck/model.ts:40-43 | A name of only white space is rejected as missing. |
| DeckModel.NormalizeDescription | src/entities/deck/model.ts:110 | `description?.trim() \|\| undefined`: no description when it is absent or blank. Otherwise it is the trimmed, non-empty text. |
| DeckModel.StatsMapSpec | src/entities/deck/model.ts:63-66 | The statistics map has exactly the listed deck ids as keys. Each entry is `getCardCount` for that deck. |
| DeckModel.StatsMapSnoc | src/entities/deck/model.ts:64-66 | One loop step adds one deck's counters under its id. |
| DeckModel.DeckList.constructor | src/entities/deck/model.ts:51-56 | The list starts with no decks, no statistics and loading set. |
| DeckModel.DeckList.LoadDecks | src/entities/deck/model.ts:58-73 | On success the list is the deck table and the statistics map is `StatsMap` of the store. On failure both stay. Loading ends in every case. |
| DeckModel.DeckList.CreateDeck | src/entities/deck/model.ts:100-124 | An invalid name is rejected with its reason before the store is touched. Otherwise a deck with the trimmed name and normalised description is added, returned, and listed. A store failure is passed on with the store, the decks, their counters and the loading flag unchanged. |
| DeckModel.DeckList.DeleteDeck | src/entities/deck/model.ts:126-145 | It returns true iff the store is open. Then the store is `DropDeck` of the old one and the refreshed list lacks the deck. Otherwise nothing changes, the loading flag included. |
| DeckModel.DeleteListed | src/entities/deck/model.ts:130-133 | The per-card delete loop removes exactly the listed ids from the card table. |
| DeckModel.CascadeThenDrop | src/entities/deck/model.ts:130-135 | Deleting the deck's cards first and the deck afterwards gives the same store as the store's own deck deletion. |
| DeckModel.DroppedDeckUnlisted | src/entities/deck/model.ts:135-137 | A deck id the store no longer finds is absent from the reloaded list. |
| BackupRestore.ExportCardsSpec | src/features/backup-restore/model.ts:35-41 | The exported cards are exactly the stored cards whose deck is listed. |
| BackupRestore.ExportComplete | src/features/backup-restore/model.ts:35-41 | When every card's deck exists, the export holds every card. |
| BackupRestore.ExportAllData | src/features/backup-restore/model.ts:31-71 | The export is version "1.0.0", the given date, the deck table, and the concatenation of each deck's cards in deck order. It fails iff the store is not open. |
| BackupRestore.ImportDeckSpec | src/features/backup-restore/model.ts:89-106 | A deck whose id is stored is skipped and counts 0. Otherwise one deck is added at the end under the next fresh id, with the file's name and description and both dates now, and counts 1; the supply moves on by one. Every other id finds what it found before. Cards are untouched. |
| BackupRestore.ImportCardSpec | src/features/backup-restore/model.ts:108-146 | A card not found among its deck's cards is created fresh and counts as imported. A found card is replaced only when the file's `updatedAt` is strictly later. Then the seven content and scheduling fields (front, back, interval, repetitions, ease, next review date, `isNew`) are copied, id and deck are kept, `updatedAt` is now, every other card and the id counter are unchanged, and it counts as updated. Otherwise nothing changes. |
| BackupRestore.ImportDecksSnoc | src/features/backup-restore/model.ts:89-106 | One step of the deck loop imports the next deck into the store so far and adds its count. |
| BackupRestore.ImportCardsSnoc | src/features/backup-restore/model.ts:108-146 | One step of the card loop imports the next card into the store so far and adds its counts. |
| BackupRestore.ImportDecksBound | src/features/backup-restore/model.ts:89-106 | importedDecks ≤ the decks in the file. Cards are untouched and the store stays valid. |
| BackupRestore.ImportCardsBound | src/features/backup-restore/model.ts:108-146 | importedCards + updatedCards ≤ the cards in the file. Decks are untouched and the store stays valid. |
| BackupRestore.ImportDecksCreateMissing | src/features/backup-restore/model.ts:89-106 | With fresh ids above the file's, the deck pass creates exactly one deck per file deck whose id was not stored before, a repeated id included. Every id below the supply finds what it found before. |
| BackupRestore.FoundInDeck | src/features/backup-restore/model.ts:110-111 | Finding an id among the deck's listed cards succeeds iff the id is stored and its card belongs to that deck. |
| BackupRestore.MissingAgrees | src/features/backup-restore/model.ts:110-113 | Whether a file card is found depends only on which deck its id is stored in. |
| BackupRestore.ImportCardKeepsLowIds | src/features/backup-restore/model.ts:109-142 | One card step creates a card iff the file card is not found, moves the supply by that count, and keeps every id below the old supply in the deck it was in. |
| BackupRestore.AddKeepsDecks | src/features/backup-restore/model.ts:130-141 | Creating a card keeps every id below the supply in its deck. |
| BackupRestore.PatchKeepsDecks | src/features/backup-restore/model.ts:117-128 | Overwriting a found card succeeds, keeps the supply, and keeps every id in its deck. |
| BackupRestore.ImportCardsKeepLowIds | src/features/backup-restore/model.ts:108-146 | Through the card pass, every id below the supply stays in its deck and the supply moves by one per created card. |
| BackupRestore.ImportCardsCreateMissing | src/features/backup-restore/model.ts:108-146 | With fresh ids above the file's, the card pass creates exactly one card per file card not found in its deck beforehand, a repeated id included. |
| BackupRestore.ImportAllCreatesMissing | src/features/backup-restore/model.ts:85-146 | The reported counts: new decks are the file decks whose id was not stored, and new cards are the file cards not found in their deck, both judged against the store before the import. |
| BackupRestore.ImportCardLeavesDeckIds | src/features/backup-restore/model.ts:109-142 | After a card step some stored card refers to the file card's deck, and every deck id referred to before still is. |
| BackupRestore.ImportCardsLeaveDeckIds | src/features/backup-restore/model.ts:108-146 | After the card pass every file card's deck id is referred to by a stored card. |
| BackupRestore.ImportAllBound | src/features/backup-restore/model.ts:85-146 | The whole import keeps the store valid and both counting bounds. |
| BackupRestore.ImportData | src/features/backup-restore/model.ts:73-160 | A file missing its version, decks or cards is rejected and nothing changes. Otherwise the supply is moved past the file's ids, and the new store and the counts are those of `ImportAll`. A closed store makes every step fail, so the counts are zero. |
| BackupRestore.ImportDeckList | src/features/backup-restore/model.ts:89-106 | The deck loop's store and counter are `ImportDecks` of the old store. |
| BackupRestore.ImportOneDeck | src/features/backup-restore/model.ts:90-105 | One deck step is `ImportDeck`, and does nothing when the store is closed. |
| BackupRestore.ImportCardList | src/features/backup-restore/model.ts:108-146 | The card loop's store and counters are `ImportCards` of the old store. |
| BackupRestore.ImportOneCard | src/features/backup-restore/model.ts:109-145 | One card step is `ImportCard`, and does nothing when the store is closed. |
| BackupRestore.RestoreOrphansCards | src/features/backup-restore/model.ts:89-142 | As written, on every store and file: a file card whose deck id was not stored beforehand names a deck id that is still stored nowhere, yet a stored card refers to it. So any such card leaves the store with an orphaned card. |
| BackupRestore.DecksKeptPresent | src/features/backup-restore/model.ts:89-106 | With the file's deck ids kept, every deck in the file and every deck already stored is present afterwards. |
| BackupRestore.DeckStaysStored | src/features/backup-restore/model.ts:94-102 | One id-keeping deck step keeps every stored deck id and adds the file deck's own id. |
| BackupRestore.ImportCardKeepsAttached | src/features/backup-restore/model.ts:108-146 | Importing a card of a stored deck leaves no card without its deck. |
| BackupRestore.ImportCardsKeepAttached | src/features/backup-restore/model.ts:108-146 | The card loop leaves no card without its deck when every file card names a stored deck. |
| BackupRestore.RestoreKeepingIdsAttaches | src/features/backup-restore/model.ts:85-146 | With deck ids kept, a restore leaves no card without its deck whenever every card in the file names a deck in the file. |
| CardsTable.FilteredCards | src/entities/card/ui/CardsTable.tsx:15-21 | An order-preserving sublist holding exactly the cards whose lowercased front or back contains the lowercased term. The term is not trimmed. |
| CardsTable.EmptyTermKeepsAll | src/entities/card/ui/CardsTable.tsx:15-21 | The empty search term keeps every card. |
| CardsTable.AgreesWithFilterCards | src/entities/card/ui/CardsTable.tsx:15-21 | On a non-blank term the table filter equals the card entity's `filterCards`. |
| CardsTable.VisibleCards | src/entities/card/ui/CardsTable.tsx:23 | The shown rows are the first min(visibleCount, filtered) filtered cards. |
| CardsTable.ShowMoreSpec | src/entities/card/ui/CardsTable.tsx:173-181 | "Show more" appears iff fewer rows are shown than match. It then promises 1..10 cards, and one more page shows exactly that many more. |
| CardsTable.GetCardStatus | src/entities/card/ui/CardsTable.tsx:26-52 | The table's badge has the same text and colours as the entity's badge, with its own icons. |
| CardsTable.NextReviewLadder | src/entities/card/ui/CardsTable.tsx:54-66 | A date not in the future is "Сейчас". Up to an hour ahead gives 1..60 minutes rounded up, up to a day gives 2..24 hours, and later gives d ≥ 2 days. "Завтра" is never produced. |
| CardsTable.LadderMinutes | src/entities/card/ui/CardsTable.tsx:57-62 | Within the hour the label is the minutes rounded up, between 1 and 60. |
| CardsTable.LadderHours | src/entities/card/ui/CardsTable.tsx:58-63 | Past the hour and within the day the label is the hours rounded up, between 2 and 24. |
| CardsTable.LadderDays | src/entities/card/ui/CardsTable.tsx:59-65 | Past the day the label is the days rounded up, at least 2. |
| CardsTable.PastTheHour | src/entities/card/ui/CardsTable.tsx:57-58 | Past the hour, the minutes exceed 60 and the hours are at least 2, and at most 24 within the day. |
| CardsTable.PastTheDay | src/entities/card/ui/CardsTable.tsx:58-59 | Past the day, the hours exceed 24 and the days are at least 2. |
| TableModel.Toggled | src/entities/table/model.ts:27-29 | The toggled order is the other one: asc becomes desc and desc becomes asc. |
| TableModel.ToggleTwice | src/entities/table/model.ts:27-29 | Toggling twice gives the order back. |
| TableModel.Table.constructor | src/entities/table/model.ts:22-25 | The table starts with an empty term, sorted by creation date, descending, with 10 rows. |
| TableModel.Table.SetSearchTerm | src/entities/table/model.ts:22 | Only the term changes. |
| TableModel.Table.SetSortBy | src/entities/table/model.ts:23 | Only the sort column changes. |
| TableModel.Table.SetSortOrder | src/entities/table/model.ts:24 | Only the direction changes. |
| TableModel.Table.ToggleSortOrder | src/entities/table/model.ts:27-29 | The direction flips and nothing else changes. |
| TableModel.Table.ClearSearch | src/entities/table/model.ts:31-33 | The term becomes empty and nothing else changes. |
| TableModel.Table.ShowMore | src/entities/table/model.ts:35-37 | The row count grows by exactly 10 and nothing else changes. The count stays a positive multiple of 10. |
| AppModel.App.constructor | src/entities/app/model.ts:25-27 | The app starts on the deck list, with no deck selected and the dialog closed. |
| AppModel.App.SetCurrentView | src/entities/app/model.ts:25 | Only the view changes. The page stays about a deck iff the target is the deck list or a deck is selected. |
| AppModel.App.SelectDeck | src/entities/app/model.ts:29-32 | The deck is selected and its page shown. The dialog flag is untouched. |
| AppModel.App.StartStudy | src/entities/app/model.ts:34-37 | The deck is selected and the session shown. The dialog flag is untouched. |
| AppModel.App.BackToDecks | src/entities/app/model.ts:39-42 | The selection is cleared and the deck list shown. The dialog flag is untouched. |
| AppModel.App.BackToDeck | src/entities/app/model.ts:44-46 | The deck page is shown with the selection kept. Coming from a deck page or a session, a deck is still selected. |
| AppModel.App.OpenCreateDeckModal | src/entities/app/model.ts:48-50 | The dialog opens. View and selection are untouched. |
| AppModel.App.CloseCreateDeckModal | src/entities/app/model.ts:52-54 | The dialog closes. View and selection are untouched. |
| Events.Registered | src/shared/utils/events.ts:6-11 | `on` appends the callback to the event's list, creating it if missing, so duplicates are kept. Every other event's list is unchanged. |
| Events.Unregistered | src/shared/utils/events.ts:13-16 | `off` on an event with no list changes nothing. Otherwise the list is filtered of the callback, and other events are unchanged. |
| Events.OffRemovesAll | src/shared/utils/events.ts:13-16 | After `off` the callback is not registered. Every other callback remains, and the rest keep their order as a subsequence. |
| Events.OnThenOff | src/shared/utils/events.ts:6-16 | `on` then `off` of a callback not registered before restores every event's list. At most an empty list for the event is left behind. |
| Events.EventEmitter.constructor | src/shared/utils/events.ts:4 | The bus starts with no events. |
| Events.EventEmitter.On | src/shared/utils/events.ts:6-11 | The registry becomes `Registered` of the old one. |
| Events.EventEmitter.Off | src/shared/utils/events.ts:13-16 | The registry becomes `Unregistered` of the old one. |
| Events.EventEmitter.Emit | src/shared/utils/events.ts:18-21 | The calls made are the event's callbacks, once per registration, in registration order. None are made for an unknown event. |

## Left out

- Asynchrony and concurrency. Store calls are sequential method calls; the React state hooks, effects and re-renders are not modelled. A state update is an assignment to a field.
- IndexedDB itself: the schema upgrade in `init`, the indexes as data structures, `reset`, and the `useDatabase` hook. The `deckId` and `nextReviewDate` indexes are modelled by what they return for records whose dates are stored as `Date` values (see the next line for the exception).
- Date rehydration (`new Date(...)` on read) is the identity on millisecond timestamps, but only for dates stored as `Date` values.
- Database.DueCardsOf and BackupRestore.ImportCard: a date's stored key type is not modelled. `importData` passes `nextReviewDate` from the parsed file to `createCard` and `updateCardFields` as a string (src/features/backup-restore/model.ts:125 and 139). IndexedDB orders every string key after every `Date` key, so the `upperBound(now)` cursor of `getDueCards` (src/shared/database/model.ts:177) never reaches an imported card, while `getCardCount` re-parses the date (:244-245) and counts it as due. In the source, a non-new imported card with a past date is counted as due on the deck list but never enters a study session. In the model, Database.DueCardsOf and StudySession.StudyQueue include it.
- The clock is the parameter `now`. UUID generation is the store's `nextId` counter.
- Key order. With counter ids, key order is creation order. The source's keys are random UUIDs, so IndexedDB's key-order scans return records in an arbitrary order. Three statements hold as written only under the counter: the "added at the end" of BackupRestore.ImportDeckSpec (its lookup clause does not depend on order), the order of `getDecks` and `getCardsByDeck`, and which 20 new cards StudySession.StudyQueueSpec takes (Database.NewCardsOfSpec's "prefix in store order").
- Database.MnemozaDatabase.UpdateDeck and Database.MnemozaDatabase.UpdateCard: the source sets `updatedAt` on the caller's object in place before the put (src/shared/database/model.ts:84 and 199). The model stores an updated copy. The study session passes a fresh result of the scheduler and drops it after the put, the card list reloads from the store, and nothing in the core calls `updateDeck`, so no modelled caller sees the difference.
- Floating point. Intervals and ease factors are exact reals, so binary rounding of products such as 2.5·1.3 is not captured.
- StudySession.GetSessionSummary: accuracy is `Math.round` of an exact real ratio. JavaScript divides and multiplies in binary floating point, which can land just below a .5 boundary: 23 correct of 40 gives 57 there and 58 here.
- StudySession.CalculateProgress: the percentage is an exact real, not the binary floating-point value JavaScript computes.
- Scheduler: the `default: throw` branches for an unknown answer cannot occur with a four-value answer type. `getButtonColor` is a colour table for the buttons and is not part of the model.
- Text.ToLower covers ASCII and the Russian Cyrillic alphabet, not all Unicode case mappings. Text.IsWhitespace lists the common white-space characters, not every Unicode space separator.
- CardModel.CardList.LoadCards: the `if (!deckId) return` guard is not modelled, because deck ids are natural numbers and none is empty.
- DeckModel.GetCardWord is stated over natural numbers; negative and fractional counts are not modelled.
- Database.DueCardsOf: the relative order of cards with equal `nextReviewDate` is not pinned down, because the index walk and the stable sort are summarised by "sorted and a permutation".
- Status icons are React components in the table and emoji on the entity. They are modelled as short names.
- Event emits from the entity hooks (`card:created`, `deck:created` and so on), the subscriptions in the effects, and the 300 ms debounce of the deck list. The bus itself is modelled in `Events`; callbacks are identities and emit records the calls instead of running them.
- Backup: reading the file, `JSON.parse`, the Blob download and the status messages are not modelled. The export date is a parameter. A malformed JSON text is not modelled; a parsed file missing a field is. The `|| 0` default of a missing `updatedAt` is not modelled, because records always carry one. `handleFileUpload` and the `onDataImported` callback are not modelled.
- BackupRestore.ImportData follows the code as written, creating missing decks under fresh ids. The id-keeping restore is modelled beside it (see Findings).
- Navigation views, the card form modals and all rendering.

## Findings

| source | as written | input that shows it | evidently intended | confidence | as-written member | corrected member |
|---|---|---|---|---|---|---|
| src/features/backup-restore/model.ts:89-102 | A deck missing from the store is recreated through `createDeck`, which gives it a freshly generated id. The file's cards still carry the file's `deckId`. | Restore into an empty store a file with deck id 5 and card 7 of deck 5 (any deck id gives the same). The counts are 1 deck and 1 card, and the card belongs to no stored deck. | The restored deck keeps its id, so every card in a self-consistent backup is attached to a stored deck after the restore. | not executed | BackupRestore.RestoreOrphansCards | BackupRestore.RestoreKeepingIdsAttaches |
