/**
 * The review-session controller of the card test screen: the due list of
 * one collection or of all cards, a position in it and a loading flag.
 * Reviewing the current card records the outcome in the card store and
 * moves on; after the last card the due list is loaded again.
 *
 * The store's clock and its failures are parameters: `now` is the time the
 * review is recorded at, `reloadNow` the later time the due cards are read
 * again at, and `loadFails` says that reading the due cards threw.
 */
module Session {
  import opened Wrappers
  import Cards

  class ReviewSession {
    const collectionId: Option<int>
    var dueCards: seq<Cards.Card>
    var index: int
    var isLoading: bool

    /** The position is in the list, or 0 when the list is empty. */
    ghost predicate Valid()
      reads this
    {
      0 <= index && (index < |dueCards| || index == 0)
    }

    /** The hook's initial state, before its first load. */
    constructor (collectionId: Option<int>)
      ensures Valid()
      ensures this.collectionId == collectionId
      ensures dueCards == [] && index == 0 && isLoading
    {
      this.collectionId := collectionId;
      dueCards := [];
      index := 0;
      isLoading := true;
    }

    /** `currentCard`: the card at the position; absent past the end. */
    function CurrentCard(): (r: Option<Cards.Card>)
      reads this
      ensures r.Some? <==> 0 <= index < |dueCards|
      ensures r.Some? ==> 1 <= CurrentIndex() <= TotalCards() && r.value == dueCards[CurrentIndex() - 1]
      ensures Valid() ==> (r.None? <==> TotalCards() == 0)
    {
      if 0 <= index < |dueCards| then Some(dueCards[index]) else None
    }

    /** `currentIndex`: the position counted from 1. */
    function CurrentIndex(): (n: int)
      reads this
    {
      index + 1
    }

    /** `totalCards`: the length of the due list. */
    function TotalCards(): (n: nat)
      reads this
    {
      |dueCards|
    }

    /**
     * `loadDueCards`: on success the due list is replaced and the position
     * reset; on failure both are kept. Loading ends either way.
     */
    method LoadDueCards(store: Cards.CardStore, now: int, loadFails: bool)
      requires Valid()
      modifies this
      ensures Valid() && !isLoading
      ensures loadFails ==> dueCards == old(dueCards) && index == old(index)
      ensures !loadFails ==> dueCards == Cards.DueCards(store.Cards(), collectionId, now) && index == 0
    {
      isLoading := true;
      if !loadFails {
        var cards := Cards.DueCards(store.Cards(), collectionId, now);
        dueCards := cards;
        index := 0;
      }
      isLoading := false;
    }

    /**
     * `handleCardReview`: nothing happens past the end of the list. Otherwise
     * the outcome is recorded for the card at the position, and the position
     * moves on, or, after the last card, the due list is loaded again.
     */
    method HandleCardReview(isCorrect: bool, store: Cards.CardStore, now: int, reloadNow: int, loadFails: bool)
      requires Valid()
      modifies this, store
      ensures Valid()
      ensures old(index) >= |old(dueCards)| ==>
        && store.blob == old(store.blob)
        && dueCards == old(dueCards) && index == old(index) && isLoading == old(isLoading)
      ensures old(index) < |old(dueCards)| ==>
        store.Cards() == Cards.ReviewInList(old(store.Cards()), old(dueCards)[old(index)].id, isCorrect, now)
      ensures old(index) < |old(dueCards)| - 1 ==>
        dueCards == old(dueCards) && index == old(index) + 1 && isLoading == old(isLoading)
      ensures old(index) == |old(dueCards)| - 1 && loadFails ==>
        dueCards == old(dueCards) && index == old(index) && !isLoading
      ensures old(index) == |old(dueCards)| - 1 && !loadFails ==>
        dueCards == Cards.DueCards(store.Cards(), collectionId, reloadNow) && index == 0 && !isLoading
    {
      if index >= |dueCards| {
        return;
      }
      var current := dueCards[index];
      store.RecordReview(current.id, isCorrect, now);
      if index < |dueCards| - 1 {
        index := index + 1;
      } else {
        LoadDueCards(store, reloadNow, loadFails);
      }
    }
  }
}
