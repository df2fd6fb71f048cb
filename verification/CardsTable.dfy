/** The pure helpers of the card table: the search filter, paging by
    `visibleCount`, the status badge and the relative "next review" label. */
module CardsTable {
  import opened CardTypes
  import opened Numbers
  import opened Text
  import Seqs
  import CardModel

  /** `filteredCards`: the cards whose lowercased front or back contains the
      lowercased term, in order; the term is not trimmed. */
  function FilteredCards(cards: seq<Card>, searchTerm: string): (r: seq<Card>)
    ensures Seqs.SubseqOf(r, cards)
    ensures forall c :: c in r <==> c in cards && CardModel.Matches(c, searchTerm)
  {
    var r := Seqs.Filter(cards, CardModel.MatchesTerm(searchTerm));
    Seqs.FilterSubseq(cards, CardModel.MatchesTerm(searchTerm));
    assert forall c :: c in r <==> c in cards && CardModel.Matches(c, searchTerm) by {
      forall c ensures c in r <==> c in cards && CardModel.Matches(c, searchTerm) {
        if c in cards && CardModel.Matches(c, searchTerm) {
          var k :| 0 <= k < |cards| && cards[k] == c;
        }
        if c in r {
          var k :| 0 <= k < |r| && r[k] == c;
        }
      }
    }
    r
  }

  /** The empty term keeps every card. */
  lemma EmptyTermKeepsAll(cards: seq<Card>)
    ensures FilteredCards(cards, "") == cards
  {
    forall c: Card ensures CardModel.MatchesTerm("")(c) {
      assert ToLower("") == "";
      ContainsEmpty(ToLower(c.front));
    }
    Seqs.FilterAll(cards, CardModel.MatchesTerm(""));
  }

  /** On a term that is not blank the table and the card entity filter alike;
      they differ only on a term of white space, which the entity ignores
      and the table searches for. */
  lemma AgreesWithFilterCards(cards: seq<Card>, searchTerm: string)
    requires Trim(searchTerm) != []
    ensures FilteredCards(cards, searchTerm) == CardModel.FilterCards(cards, searchTerm)
  {
  }

  /** `visibleCards`: the first `visibleCount` filtered cards. */
  function VisibleCards(filtered: seq<Card>, visibleCount: nat): (r: seq<Card>)
    ensures |r| == if visibleCount < |filtered| then visibleCount else |filtered|
    ensures r == filtered[..|r|]
  {
    Seqs.Take(filtered, visibleCount)
  }

  /** `hasMore`: some filtered card is not shown yet. */
  predicate HasMore(filtered: seq<Card>, visibleCount: nat)
  {
    visibleCount < |filtered|
  }

  /** The number on the "show more" button. */
  function ShowMoreCount(filtered: seq<Card>, visibleCount: nat): int
  {
    if 10 < |filtered| - visibleCount then 10 else |filtered| - visibleCount
  }

  /** There is more to show exactly when fewer cards are shown than match;
      the button then promises between 1 and 10 cards, and pressing it
      (ten more rows) shows exactly that many more. */
  lemma ShowMoreSpec(filtered: seq<Card>, visibleCount: nat)
    ensures HasMore(filtered, visibleCount) <==> |VisibleCards(filtered, visibleCount)| < |filtered|
    ensures HasMore(filtered, visibleCount) ==>
      && 1 <= ShowMoreCount(filtered, visibleCount) <= 10
      && |VisibleCards(filtered, visibleCount + 10)|
         == |VisibleCards(filtered, visibleCount)| + ShowMoreCount(filtered, visibleCount)
  {
  }

  /** The table's badge: the entity's badge with its own icons. */
  function GetCardStatus(card: Card, now: Timestamp): (b: CardModel.Badge)
    ensures b.text == CardModel.GetCardStatus(card, now).text
    ensures b.bgColor == CardModel.GetCardStatus(card, now).bgColor
    ensures b.textColor == CardModel.GetCardStatus(card, now).textColor
  {
    match StatusOf(card, now)
    case New => CardModel.Badge("Star", "Новая", "bg-blue-100", "text-blue-800")
    case Due => CardModel.Badge("RotateCcw", "К повторению", "bg-red-100", "text-red-800")
    case Learned => CardModel.Badge("✓", "Изучена", "bg-green-100", "text-green-800")
  }

  /** The table's relative label, with the branch for one day as written. */
  function GetNextReviewText(date: Timestamp, now: Timestamp): string
  {
    var diffMs := date - now;
    var diffMinutes := CeilDiv(diffMs, MINUTE_MS);
    var diffHours := CeilDiv(diffMs, HOUR_MS);
    var diffDays := CeilDiv(diffMs, DAY_MS);
    if diffMs <= 0 then "Сейчас"
    else if diffMinutes <= 60 then IntToString(diffMinutes) + "м"
    else if diffHours <= 24 then IntToString(diffHours) + "ч"
    else if diffDays == 1 then "Завтра"
    else IntToString(diffDays) + " дн."
  }

  /** The ladder: now, then 1–60 minutes up to an hour, then 2–24 hours up
      to a day, then two days or more. "Завтра" is never shown: any
      difference past the hour branch is over a day, so it is at least two
      days rounded up. */
  lemma NextReviewLadder(date: Timestamp, now: Timestamp)
    ensures var diff := date - now; var s := GetNextReviewText(date, now);
      && (diff <= 0 ==> s == "Сейчас")
      && (0 < diff <= HOUR_MS ==>
            exists m: nat :: 1 <= m <= 60 && (m - 1) * MINUTE_MS < diff <= m * MINUTE_MS && s == NatToString(m) + "м")
      && (HOUR_MS < diff <= DAY_MS ==>
            exists h: nat :: 2 <= h <= 24 && (h - 1) * HOUR_MS < diff <= h * HOUR_MS && s == NatToString(h) + "ч")
      && (DAY_MS < diff ==>
            exists d: nat :: 2 <= d && (d - 1) * DAY_MS < diff <= d * DAY_MS && s == NatToString(d) + " дн.")
      && s != "Завтра"
  {
    var diff := date - now;
    if diff <= 0 {
      assert GetNextReviewText(date, now) == "Сейчас";
      assert "Сейчас"[1] != "Завтра"[1];
    } else if diff <= HOUR_MS {
      LadderMinutes(date, now);
    } else if diff <= DAY_MS {
      LadderHours(date, now);
    } else {
      LadderDays(date, now);
    }
  }

  lemma LadderMinutes(date: Timestamp, now: Timestamp)
    requires 0 < date - now <= HOUR_MS
    ensures var m := CeilDiv(date - now, MINUTE_MS); var s := GetNextReviewText(date, now);
      1 <= m <= 60 && s == NatToString(m) + "м" && s != "Завтра"
  {
    var m := CeilDiv(date - now, MINUTE_MS);
    var s := GetNextReviewText(date, now);
    assert 1 <= m <= 60;
    assert s == NatToString(m) + "м";
    assert s[|s| - 1] != "Завтра"[5];
  }

  lemma LadderHours(date: Timestamp, now: Timestamp)
    requires HOUR_MS < date - now <= DAY_MS
    ensures var h := CeilDiv(date - now, HOUR_MS); var s := GetNextReviewText(date, now);
      2 <= h <= 24 && s == NatToString(h) + "ч" && s != "Завтра"
  {
    PastTheHour(date - now);
    var h := CeilDiv(date - now, HOUR_MS);
    var s := GetNextReviewText(date, now);
    assert s == NatToString(h) + "ч";
    assert s[|s| - 1] != "Завтра"[5];
  }

  lemma LadderDays(date: Timestamp, now: Timestamp)
    requires DAY_MS < date - now
    ensures var d := CeilDiv(date - now, DAY_MS); var s := GetNextReviewText(date, now);
      2 <= d && s == NatToString(d) + " дн." && s != "Завтра"
  {
    PastTheHour(date - now);
    PastTheDay(date - now);
    var d := CeilDiv(date - now, DAY_MS);
    var s := GetNextReviewText(date, now);
    assert s == NatToString(d) + " дн.";
    assert s[|s| - 1] != "Завтра"[5];
  }

  /** Past the hour, the minutes exceed 60 and the hours count from 2. */
  lemma PastTheHour(diff: int)
    requires HOUR_MS < diff
    ensures CeilDiv(diff, MINUTE_MS) > 60
    ensures 2 <= CeilDiv(diff, HOUR_MS)
    ensures diff <= DAY_MS ==> CeilDiv(diff, HOUR_MS) <= 24
  {
    var m := CeilDiv(diff, MINUTE_MS);
    var h := CeilDiv(diff, HOUR_MS);
    assert m * 60000 >= diff > 3600000;
    assert h * 3600000 >= diff > 3600000;
    assert diff <= 86400000 ==> (h - 1) * 3600000 < 86400000;
  }

  /** Past the day, the hours exceed 24 and the days count from 2. */
  lemma PastTheDay(diff: int)
    requires DAY_MS < diff
    ensures CeilDiv(diff, HOUR_MS) > 24
    ensures 2 <= CeilDiv(diff, DAY_MS)
  {
    var h := CeilDiv(diff, HOUR_MS);
    var d := CeilDiv(diff, DAY_MS);
    assert h * 3600000 >= diff > 86400000;
    assert d * 86400000 >= diff > 86400000;
  }
}
