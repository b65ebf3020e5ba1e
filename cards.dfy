/**
 * The card table: translation flashcards kept as one list under one storage
 * key, the SuperMemo-2 review rule (binary outcome), and the due-card and
 * review-status queries.
 *
 * Units: a timestamp is an integer number of milliseconds; a day is
 * `DayMs` of them. The ease factor is an integer number of tenths (2.5 is
 * 25). A stored card written by an older version may lack `reviewCount`,
 * `interval` or `easeFactor`; the review rule treats a missing field like 0
 * (`!x` is true for both), so 0 stands for "missing" here.
 */
module Cards {
  import opened Wrappers
  import Seqs

  datatype Tag =
    | Verb | Noun | Adjective | Adverb | Pronoun | Preposition
    | Conjunction | Interjection | Article | Number | Punctuation | Other

  const DayMs: int := 86_400_000
  /** 2.5, the ease factor of a new card or of one stored without a usable ease. */
  const InitialEase: int := 25
  /** 1.3, the floor of the ease factor after a review. */
  const MinEase: int := 13

  datatype Card = Card(
    id: string,
    originalText: string,
    translatedText: string,
    createdAt: int,
    tag: Option<Tag>,
    collectionId: Option<int>,
    lastReviewed: Option<int>,
    nextReview: Option<int>,
    reviewCount: int,
    easeFactor: int,
    interval: int)

  /** One entry of a bulk import: the collection is always given. */
  datatype Draft = Draft(
    originalText: string,
    translatedText: string,
    collectionId: int,
    tag: Option<Tag>)

  /** The scheduling state of a card that was never reviewed. */
  predicate Unreviewed(c: Card) {
    && c.reviewCount == 0 && c.easeFactor == InitialEase && c.interval == 0
    && c.lastReviewed.None? && c.nextReview.None?
  }

  /** A card is due when it was never scheduled or its time has come. */
  predicate IsDue(c: Card, now: int) {
    c.nextReview.None? || c.nextReview.value <= now
  }

  /** A card is upcoming when it is scheduled strictly after `now`. */
  predicate IsUpcoming(c: Card, now: int) {
    c.nextReview.Some? && c.nextReview.value > now
  }

  /**
   * The state every card keeps when it is only created and reviewed: counts
   * and intervals are not negative, the ease factor is missing or at least
   * the floor, and a reviewed card waits at least a day.
   */
  predicate WellScheduled(c: Card) {
    && c.reviewCount >= 0
    && c.interval >= 0
    && (c.easeFactor == 0 || c.easeFactor >= MinEase)
    && (c.reviewCount > 0 ==> c.interval >= 1)
  }

  /** A card may be truthy-filtered by collection: `collectionId ? filter : all`. */
  predicate Truthy(collectionId: Option<int>) {
    collectionId.Some? && collectionId.value != 0
  }

  // ---------------------------------------------------------------- creation

  /** The record `addTranslationCard` builds; the tag defaults to Other. */
  function NewCard(id: string, originalText: string, translatedText: string, now: int,
                   tag: Option<Tag>, collectionId: Option<int>): (c: Card)
    ensures Unreviewed(c) && WellScheduled(c)
    ensures c.id == id && c.createdAt == now && c.collectionId == collectionId
    ensures c.originalText == originalText && c.translatedText == translatedText
    ensures c.tag == Some(if tag.Some? then tag.value else Other)
  {
    Card(id, originalText, translatedText, now, Some(tag.GetOr(Other)), collectionId,
         None, None, 0, InitialEase, 0)
  }

  /**
   * The records `addTranslationCardsInBulk` builds, one per draft, in input
   * order. Each record reads the clock on its own: `times[i]` is the
   * creation time of the i-th card.
   */
  function NewCards(drafts: seq<Draft>, ids: seq<string>, times: seq<int>): (r: seq<Card>)
    requires |ids| == |drafts| && |times| == |drafts|
    ensures |r| == |drafts|
    ensures forall i :: 0 <= i < |r| ==>
      r[i] == NewCard(ids[i], drafts[i].originalText, drafts[i].translatedText, times[i],
                      drafts[i].tag, Some(drafts[i].collectionId))
  {
    if drafts == [] then []
    else
      var d := drafts[0];
      [NewCard(ids[0], d.originalText, d.translatedText, times[0], d.tag, Some(d.collectionId))]
        + NewCards(drafts[1..], ids[1..], times[1..])
  }

  /** The ids of a list of cards, in order (`map((card) => card.id)`). */
  function Ids(cards: seq<Card>): (r: seq<string>)
    ensures |r| == |cards|
    ensures forall i :: 0 <= i < |r| ==> r[i] == cards[i].id
  {
    if cards == [] then [] else [cards[0].id] + Ids(cards[1..])
  }

  /** Bulk import returns exactly the fresh ids, one per draft and in order. */
  lemma {:induction false} NewCardsIds(drafts: seq<Draft>, ids: seq<string>, times: seq<int>)
    requires |ids| == |drafts| && |times| == |drafts|
    ensures Ids(NewCards(drafts, ids, times)) == ids
    ensures forall c :: c in NewCards(drafts, ids, times) ==> Unreviewed(c) && WellScheduled(c)
  {
    var r := NewCards(drafts, ids, times);
    assert forall i :: 0 <= i < |ids| ==> Ids(r)[i] == ids[i];
  }

  // ------------------------------------------------------------------ edits

  /** `c` and `d` agree on every field except the two texts and the tag. */
  predicate SameExceptText(c: Card, d: Card) {
    c.(originalText := d.originalText, translatedText := d.translatedText, tag := d.tag) == d
  }

  /**
   * `updateTranslationCard`: every card with the id gets the new texts and
   * the given tag; an absent tag is stored as absent, it is not defaulted.
   */
  function Retext(cards: seq<Card>, id: string, originalText: string, translatedText: string,
                  tag: Option<Tag>): (r: seq<Card>)
    ensures |r| == |cards|
    ensures forall i :: 0 <= i < |r| ==> SameExceptText(cards[i], r[i])
    ensures forall i :: 0 <= i < |r| && cards[i].id != id ==> r[i] == cards[i]
    ensures forall i :: 0 <= i < |r| && cards[i].id == id ==>
      r[i].originalText == originalText && r[i].translatedText == translatedText && r[i].tag == tag
  {
    if cards == [] then []
    else
      var c := cards[0];
      var c' := if c.id == id then c.(originalText := originalText, translatedText := translatedText, tag := tag) else c;
      [c'] + Retext(cards[1..], id, originalText, translatedText, tag)
  }

  /** `deleteTranslationCard`: every card with the id is removed, the rest keep their order. */
  function WithoutCard(cards: seq<Card>, id: string): (r: seq<Card>)
    ensures |r| <= |cards|
    ensures forall c :: c in r ==> c in cards && c.id != id
    ensures forall c :: c in cards && c.id != id ==> multiset(r)[c] == multiset(cards)[c]
  {
    Seqs.Filter(cards, (c: Card) => c.id != id)
  }

  /** Deleting an id that no card has leaves the list as it was. */
  lemma WithoutAbsentCard(cards: seq<Card>, id: string)
    requires forall c :: c in cards ==> c.id != id
    ensures WithoutCard(cards, id) == cards
  {
    Seqs.FilterKeepsAll(cards, (c: Card) => c.id != id);
  }

  /** Deleting keeps relative order: it splits over any cut of the list. */
  lemma WithoutCardConcat(a: seq<Card>, b: seq<Card>, id: string)
    ensures WithoutCard(a + b, id) == WithoutCard(a, id) + WithoutCard(b, id)
  {
    Seqs.FilterConcat(a, b, (c: Card) => c.id != id);
  }

  // ----------------------------------------------------------------- review

  /** Math.round(x / 10): the nearest integer, halves rounded up. */
  function RoundTenths(x: int): (r: int)
    ensures 10 * r - 5 <= x < 10 * r + 5
  {
    (x + 5) / 10
  }

  function Max(a: int, b: int): (r: int)
    ensures r >= a && r >= b && (r == a || r == b)
  {
    if a >= b then a else b
  }

  /** The ease factor a review starts from: a missing or zero one counts as 2.5. */
  function StartEase(e: int): (r: int)
    ensures e != 0 ==> r == e
    ensures e == 0 ==> r == InitialEase
  {
    if e == 0 then InitialEase else e
  }

  /**
   * The card after one review at time `now`, as `updateCardReview` leaves
   * it (SuperMemo-2 with only "correct" or "incorrect"). Only the five
   * scheduling fields change.
   */
  function Review(c: Card, isCorrect: bool, now: int): (r: Card)
    ensures r.reviewCount == c.reviewCount + 1
    ensures r.lastReviewed == Some(now)
    ensures r.nextReview == Some(now + r.interval * DayMs)
    ensures r.easeFactor >= MinEase
    ensures isCorrect ==> r.easeFactor == Max(MinEase, StartEase(c.easeFactor) + 1)
    ensures isCorrect && r.reviewCount == 1 ==> r.interval == 1
    ensures isCorrect && r.reviewCount == 2 ==> r.interval == 6
    ensures isCorrect && r.reviewCount != 1 && r.reviewCount != 2 ==>
      10 * r.interval - 5 <= c.interval * StartEase(c.easeFactor) < 10 * r.interval + 5
    ensures !isCorrect ==> r.interval == 1 && r.easeFactor == Max(MinEase, StartEase(c.easeFactor) - 2)
    ensures r == c.(reviewCount := r.reviewCount, easeFactor := r.easeFactor, interval := r.interval,
                    lastReviewed := r.lastReviewed, nextReview := r.nextReview)
  {
    var count := c.reviewCount + 1;
    var ease := StartEase(c.easeFactor);
    var interval :=
      if !isCorrect then 1
      else if count == 1 then 1
      else if count == 2 then 6
      else RoundTenths(c.interval * ease);
    var ease' := if isCorrect then Max(MinEase, ease + 1) else Max(MinEase, ease - 2);
    c.(reviewCount := count, easeFactor := ease', interval := interval,
       lastReviewed := Some(now), nextReview := Some(now + interval * DayMs))
  }

  /** Multiplying by a larger factor gives a larger product. */
  lemma MulMonotone(a: int, b: int, c: int)
    requires a >= 0 && b >= c
    ensures a * b >= a * c
  {
    assert a * b - a * c == a * (b - c);
  }

  /** A review keeps a well-scheduled card well scheduled. */
  lemma ReviewWellScheduled(c: Card, isCorrect: bool, now: int)
    requires WellScheduled(c)
    ensures WellScheduled(Review(c, isCorrect, now))
    ensures Review(c, isCorrect, now).interval >= 1
  {
    var e := StartEase(c.easeFactor);
    assert e >= MinEase;
    if isCorrect && c.reviewCount + 1 > 2 {
      assert c.interval >= 1;
      MulMonotone(e, c.interval, 1);
      assert RoundTenths(c.interval * e) >= 1;
    }
  }

  /** After a review a well-scheduled card leaves the due set until its next review. */
  lemma ReviewedNotDueUntilNext(c: Card, isCorrect: bool, now: int, t: int)
    requires WellScheduled(c)
    ensures IsDue(Review(c, isCorrect, now), t) <==> t >= now + Review(c, isCorrect, now).interval * DayMs
    ensures !IsDue(Review(c, isCorrect, now), now)
  {
    ReviewWellScheduled(c, isCorrect, now);
  }

  /**
   * From the third review on, a correct answer never shortens the interval
   * of a well-scheduled card: the ease factor is at least 1.3.
   */
  lemma CorrectReviewGrows(c: Card, now: int)
    requires WellScheduled(c)
    requires c.reviewCount >= 2
    ensures Review(c, true, now).interval >= c.interval
  {
    var e := StartEase(c.easeFactor);
    assert e >= 10;
    MulMonotone(c.interval, e, 10);
    assert RoundTenths(c.interval * e) >= c.interval;
  }

  /** The worked example: correct, correct, incorrect, from a new card. */
  lemma ReviewScenario(id: string, t0: int, t1: int, t2: int, t3: int)
    ensures var c0 := NewCard(id, "", "", t0, None, None);
            var c1 := Review(c0, true, t1);
            var c2 := Review(c1, true, t2);
            var c3 := Review(c2, false, t3);
            && (c1.reviewCount, c1.interval, c1.easeFactor) == (1, 1, 26)
            && (c2.reviewCount, c2.interval, c2.easeFactor) == (2, 6, 27)
            && (c3.reviewCount, c3.interval, c3.easeFactor) == (3, 1, 25)
            && c3.nextReview == Some(t3 + DayMs)
  {
  }

  /** A third correct review of a new card multiplies 6 days by 2.7 and rounds: 16 days. */
  lemma ThirdCorrectReview(id: string, t0: int, t1: int, t2: int, t3: int)
    ensures Review(Review(Review(NewCard(id, "", "", t0, None, None), true, t1), true, t2), true, t3).interval == 16
  {
  }

  /** `n` consecutive incorrect reviews at time `now`. */
  function ReviewWrongTimes(c: Card, n: nat, now: int): (r: Card)
    ensures n > 0 ==> r.easeFactor >= MinEase && r.interval == 1
    ensures r.reviewCount == c.reviewCount + n
  {
    if n == 0 then c else Review(ReviewWrongTimes(c, n - 1, now), false, now)
  }

  /**
   * Five incorrect reviews of a new card, then three correct ones. In exact
   * tenths the ease falls 2.5, 2.3, 2.1, 1.9, 1.7, 1.5 and the correct
   * reviews give intervals of 2, 3 and 5 days. The code's binary floats end
   * the failures at 1.4999999999999998, which rounds the first interval
   * down to 1 (then 2 and 3 days).
   */
  lemma FailedFiveTimesThenCorrect(id: string, t0: int, now: int)
    ensures var c5 := ReviewWrongTimes(NewCard(id, "", "", t0, None, None), 5, now);
            var c6 := Review(c5, true, now);
            var c7 := Review(c6, true, now);
            var c8 := Review(c7, true, now);
            && (c5.reviewCount, c5.interval, c5.easeFactor) == (5, 1, 15)
            && (c6.interval, c6.easeFactor) == (2, 16)
            && (c7.interval, c7.easeFactor) == (3, 17)
            && c8.interval == 5
  {
    var c0 := NewCard(id, "", "", t0, None, None);
    assert ReviewWrongTimes(c0, 1, now).easeFactor == 23;
    assert ReviewWrongTimes(c0, 2, now).easeFactor == 21;
    assert ReviewWrongTimes(c0, 3, now).easeFactor == 19;
    assert ReviewWrongTimes(c0, 4, now).easeFactor == 17;
  }

  /** The index of the first card with the id, or -1. */
  function IndexOfCard(cards: seq<Card>, id: string): (k: int) {
    Seqs.IndexOf(cards, (c: Card) => c.id == id)
  }

  /** The list after `updateCardReview`: only the first card with the id is reviewed. */
  function ReviewInList(cards: seq<Card>, id: string, isCorrect: bool, now: int): (r: seq<Card>)
    ensures |r| == |cards|
    ensures (forall c :: c in cards ==> c.id != id) ==> r == cards
    ensures forall j :: 0 <= j < |r| && j != IndexOfCard(cards, id) ==> r[j] == cards[j]
    ensures var k := IndexOfCard(cards, id); k >= 0 ==> r[k] == Review(cards[k], isCorrect, now)
  {
    var k := IndexOfCard(cards, id);
    if k == -1 then cards else cards[k := Review(cards[k], isCorrect, now)]
  }

  // ---------------------------------------------------------------- queries

  /** The cards of one collection (an exact `===` match). */
  function InCollection(cards: seq<Card>, collectionId: int): (r: seq<Card>)
    ensures |r| <= |cards|
    ensures forall c :: c in r ==> c in cards && c.collectionId == Some(collectionId)
    ensures forall c :: c in cards && c.collectionId == Some(collectionId) ==>
      multiset(r)[c] == multiset(cards)[c]
  {
    Seqs.Filter(cards, (c: Card) => c.collectionId == Some(collectionId))
  }

  /** The cards a query considers: one collection when the id is truthy, otherwise all. */
  function Scope(cards: seq<Card>, collectionId: Option<int>): (r: seq<Card>)
    ensures !Truthy(collectionId) ==> r == cards
    ensures Truthy(collectionId) ==> r == InCollection(cards, collectionId.value)
  {
    if Truthy(collectionId) then InCollection(cards, collectionId.value) else cards
  }

  function NegCreatedAt(c: Card): (key: int) { -c.createdAt }

  /**
   * `getAllTranslationCards`: the cards in scope, newest first (the sort is
   * stable, so equal timestamps keep their stored order).
   */
  function AllCards(cards: seq<Card>, collectionId: Option<int>): (r: seq<Card>)
    ensures multiset(r) == multiset(Scope(cards, collectionId))
    ensures forall i, j :: 0 <= i < j < |r| ==> r[i].createdAt >= r[j].createdAt
  {
    var r := Seqs.SortBy(Scope(cards, collectionId), NegCreatedAt);
    assert forall i, j :: 0 <= i < j < |r| ==> NegCreatedAt(r[i]) <= NegCreatedAt(r[j]);
    r
  }

  /** The due cards among `cards`, in order. */
  function DueOnly(cards: seq<Card>, now: int): (r: seq<Card>)
    ensures forall c :: c in r ==> c in cards && IsDue(c, now)
    ensures forall c :: c in cards && IsDue(c, now) ==> multiset(r)[c] == multiset(cards)[c]
    ensures |r| <= |cards|
  {
    Seqs.Filter(cards, (c: Card) => IsDue(c, now))
  }

  function NextReviewKey(c: Card): (key: int) { if c.nextReview.Some? then c.nextReview.value else 0 }

  /**
   * `getDueCards`: exactly the due cards in scope, each as often as it is
   * stored; never-scheduled cards first, then the others by ascending
   * `nextReview`.
   */
  function DueCards(cards: seq<Card>, collectionId: Option<int>, now: int): (r: seq<Card>)
    ensures forall c :: c in r ==> c in Scope(cards, collectionId) && IsDue(c, now)
    ensures forall c :: c in Scope(cards, collectionId) && IsDue(c, now) ==>
      multiset(r)[c] == multiset(Scope(cards, collectionId))[c]
    ensures forall i, j :: 0 <= i < j < |r| && r[i].nextReview.Some? ==> r[j].nextReview.Some?
    ensures forall i, j :: 0 <= i < j < |r| && r[i].nextReview.Some? && r[j].nextReview.Some? ==>
      r[i].nextReview.value <= r[j].nextReview.value
  {
    var due := DueOnly(Scope(cards, collectionId), now);
    var unscheduled := Seqs.Filter(due, (c: Card) => c.nextReview.None?);
    var scheduled := Seqs.Filter(due, (c: Card) => c.nextReview.Some?);
    var sorted := Seqs.SortBy(scheduled, NextReviewKey);
    DueOrder(unscheduled, scheduled, sorted);
    DueMultiset(due, unscheduled, scheduled, sorted);
    unscheduled + sorted
  }

  lemma DueOrder(unscheduled: seq<Card>, scheduled: seq<Card>, sorted: seq<Card>)
    requires forall c :: c in unscheduled ==> c.nextReview.None?
    requires forall c :: c in scheduled ==> c.nextReview.Some?
    requires multiset(sorted) == multiset(scheduled)
    requires Seqs.SortedBy(sorted, NextReviewKey)
    ensures var r := unscheduled + sorted;
      && (forall i, j :: 0 <= i < j < |r| && r[i].nextReview.Some? ==> r[j].nextReview.Some?)
      && (forall i, j :: 0 <= i < j < |r| && r[i].nextReview.Some? && r[j].nextReview.Some? ==>
            r[i].nextReview.value <= r[j].nextReview.value)
  {
    var r := unscheduled + sorted;
    var n := |unscheduled|;
    forall i | 0 <= i < |sorted| ensures sorted[i].nextReview.Some? {
      assert sorted[i] in multiset(scheduled);
    }
    forall i | 0 <= i < n ensures r[i].nextReview.None? {
      assert r[i] == unscheduled[i] && unscheduled[i] in unscheduled;
    }
    forall i, j | 0 <= i < j < |r| && r[i].nextReview.Some?
      ensures r[j].nextReview.Some?
      ensures r[j].nextReview.Some? ==> r[i].nextReview.value <= r[j].nextReview.value
    {
      assert i >= n;
      assert r[i] == sorted[i - n] && r[j] == sorted[j - n];
      assert NextReviewKey(sorted[i - n]) <= NextReviewKey(sorted[j - n]);
    }
  }

  lemma DueMultiset(due: seq<Card>, unscheduled: seq<Card>, scheduled: seq<Card>, sorted: seq<Card>)
    requires unscheduled == Seqs.Filter(due, (c: Card) => c.nextReview.None?)
    requires scheduled == Seqs.Filter(due, (c: Card) => c.nextReview.Some?)
    requires multiset(sorted) == multiset(scheduled)
    ensures multiset(unscheduled + sorted) == multiset(due)
    ensures forall c :: c in unscheduled + sorted ==> c in due
  {
    Seqs.FilterSplit(due, (c: Card) => c.nextReview.None?, (c: Card) => c.nextReview.Some?);
    assert multiset(unscheduled + sorted) == multiset(unscheduled) + multiset(scheduled);
    forall c | c in unscheduled + sorted ensures c in due {
      assert c in multiset(unscheduled + sorted);
    }
  }

  datatype ReviewStatus = ReviewStatus(totalCards: nat, dueCards: nat, nextReviewDate: Option<int>)

  /** The least `nextReview` strictly after `now`, if any card has one. */
  function EarliestUpcoming(cards: seq<Card>, now: int): (r: Option<int>)
    ensures r.None? <==> forall c :: c in cards ==> !IsUpcoming(c, now)
    ensures r.Some? ==> r.value > now && exists c :: c in cards && c.nextReview == r
    ensures r.Some? ==> forall c :: c in cards && IsUpcoming(c, now) ==> r.value <= c.nextReview.value
  {
    if cards == [] then None
    else
      var c := cards[0];
      var rest := EarliestUpcoming(cards[1..], now);
      assert cards == [c] + cards[1..];
      if IsUpcoming(c, now) && (rest.None? || c.nextReview.value <= rest.value) then c.nextReview
      else rest
  }

  /** `getCollectionReviewStatus` for one collection at time `now`. */
  function CollectionReviewStatus(cards: seq<Card>, collectionId: int, now: int): (r: ReviewStatus)
    ensures r.dueCards <= r.totalCards
    ensures r.totalCards == |InCollection(cards, collectionId)|
    ensures r.dueCards == |DueOnly(InCollection(cards, collectionId), now)|
    ensures r.nextReviewDate.Some? ==> r.nextReviewDate.value > now
    ensures r.nextReviewDate.Some? ==>
      exists c :: c in cards && c.collectionId == Some(collectionId) && c.nextReview == r.nextReviewDate
    ensures r.nextReviewDate.Some? ==>
      forall c :: c in cards && c.collectionId == Some(collectionId) && IsUpcoming(c, now) ==>
        r.nextReviewDate.value <= c.nextReview.value
    ensures r.nextReviewDate.None? <==> r.dueCards == r.totalCards
  {
    var inCollection := InCollection(cards, collectionId);
    var due := DueOnly(inCollection, now);
    var next := EarliestUpcoming(inCollection, now);
    DueOrUpcoming(inCollection, now);
    ReviewStatus(|inCollection|, |due|, next)
  }

  /**
   * Every card is due or upcoming and not both, so the due cards and the
   * upcoming ones add up to all of them; none is upcoming exactly when all
   * are due.
   */
  lemma DueOrUpcoming(cards: seq<Card>, now: int)
    ensures |DueOnly(cards, now)| + |Seqs.Filter(cards, (c: Card) => IsUpcoming(c, now))| == |cards|
    ensures |DueOnly(cards, now)| == |cards| <==> forall c :: c in cards ==> !IsUpcoming(c, now)
  {
    var upcoming := Seqs.Filter(cards, (c: Card) => IsUpcoming(c, now));
    Seqs.FilterSplit(cards, (c: Card) => IsDue(c, now), (c: Card) => IsUpcoming(c, now));
    assert upcoming == [] <==> forall c :: c in cards ==> !IsUpcoming(c, now) by {
      assert |upcoming| > 0 ==> upcoming[0] in upcoming;
    }
  }

  /** An empty collection reports 0 cards, 0 due and no next date. */
  lemma EmptyCollectionStatus(cards: seq<Card>, collectionId: int, now: int)
    requires forall c :: c in cards ==> c.collectionId != Some(collectionId)
    ensures CollectionReviewStatus(cards, collectionId, now) == ReviewStatus(0, 0, None)
  {
    var inCollection := InCollection(cards, collectionId);
    assert forall c :: c !in inCollection;
    assert inCollection == [];
  }

  // ------------------------------------------------------------------ store

  /** The list stored under the cards key; nothing stored reads as empty. */
  class CardStore {
    var blob: Option<seq<Card>>

    function Cards(): (r: seq<Card>)
      reads this
      ensures blob.None? ==> r == []
      ensures blob.Some? ==> r == blob.value
    {
      if blob.Some? then blob.value else []
    }

    constructor (stored: Option<seq<Card>>)
      ensures blob == stored
    {
      blob := stored;
    }

    /** `addTranslationCard`: appends one new card and returns its id. */
    method AddCard(originalText: string, translatedText: string, collectionId: Option<int>,
                   tag: Option<Tag>, freshId: string, now: int) returns (id: string)
      modifies this
      ensures id == freshId
      ensures blob == Some(old(Cards()) + [NewCard(freshId, originalText, translatedText, now, tag, collectionId)])
    {
      var cards := Cards();
      var card := NewCard(freshId, originalText, translatedText, now, tag, collectionId);
      cards := cards + [card];
      blob := Some(cards);
      id := card.id;
    }

    /** `addTranslationCardsInBulk`: appends the new cards after the stored ones. */
    method AddCardsInBulk(drafts: seq<Draft>, freshIds: seq<string>, times: seq<int>) returns (ids: seq<string>)
      requires |freshIds| == |drafts| && |times| == |drafts|
      modifies this
      ensures ids == freshIds
      ensures blob == Some(old(Cards()) + NewCards(drafts, freshIds, times))
    {
      var newCards := NewCards(drafts, freshIds, times);
      blob := Some(Cards() + newCards);
      NewCardsIds(drafts, freshIds, times);
      ids := Ids(newCards);
    }

    /** `updateTranslationCard`. */
    method UpdateCard(id: string, originalText: string, translatedText: string, tag: Option<Tag>)
      modifies this
      ensures blob == Some(Retext(old(Cards()), id, originalText, translatedText, tag))
    {
      blob := Some(Retext(Cards(), id, originalText, translatedText, tag));
    }

    /** `deleteTranslationCard`. */
    method DeleteCard(id: string)
      modifies this
      ensures blob == Some(WithoutCard(old(Cards()), id))
    {
      blob := Some(WithoutCard(Cards(), id));
    }

    /**
     * `updateCardReview`: finds the first card with the id and updates its
     * scheduling fields one after the other; an unknown id writes nothing.
     */
    method RecordReview(cardId: string, isCorrect: bool, now: int)
      modifies this
      ensures IndexOfCard(old(Cards()), cardId) == -1 ==> blob == old(blob)
      ensures IndexOfCard(old(Cards()), cardId) != -1 ==>
        blob == Some(ReviewInList(old(Cards()), cardId, isCorrect, now))
      ensures Cards() == ReviewInList(old(Cards()), cardId, isCorrect, now)
    {
      var cards := Cards();
      var k := IndexOfCard(cards, cardId);
      if k == -1 {
        return;
      }
      var card := cards[k];
      if card.easeFactor == 0 {
        card := card.(easeFactor := InitialEase);
      }
      card := card.(reviewCount := card.reviewCount + 1);
      card := card.(lastReviewed := Some(now));
      if isCorrect {
        if card.reviewCount == 1 {
          card := card.(interval := 1);
        } else if card.reviewCount == 2 {
          card := card.(interval := 6);
        } else {
          card := card.(interval := RoundTenths(card.interval * card.easeFactor));
        }
        card := card.(easeFactor := Max(MinEase, card.easeFactor + 1));
      } else {
        card := card.(interval := 1);
        card := card.(easeFactor := Max(MinEase, card.easeFactor - 2));
      }
      card := card.(nextReview := Some(now + card.interval * DayMs));
      assert card == Review(cards[k], isCorrect, now);
      blob := Some(cards[k := card]);
    }
  }
}
