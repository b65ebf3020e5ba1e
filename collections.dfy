/**
 * The collection table. A card refers to a collection by id only, so
 * deleting a collection orphans its cards instead of deleting them.
 */
module Collections {
  import opened Wrappers
  import Seqs
  import Cards

  datatype Collection = Collection(id: int, name: string, description: string, createdAt: int)

  function NegCreatedAt(c: Collection): (key: int) { -c.createdAt }

  /** `getAllCollections`: the same collections, newest first. */
  function AllCollections(collections: seq<Collection>): (r: seq<Collection>)
    ensures multiset(r) == multiset(collections)
    ensures forall i, j :: 0 <= i < j < |r| ==> r[i].createdAt >= r[j].createdAt
  {
    var r := Seqs.SortBy(collections, NegCreatedAt);
    assert forall i, j :: 0 <= i < j < |r| ==> NegCreatedAt(r[i]) <= NegCreatedAt(r[j]);
    r
  }

  /**
   * The card list after a collection is deleted: the same cards in the same
   * order, those of the collection without a collection and otherwise as
   * they were.
   */
  function Orphan(cards: seq<Cards.Card>, id: int): (r: seq<Cards.Card>)
    ensures |r| == |cards|
    ensures forall c :: c in r ==> c.collectionId != Some(id)
    ensures forall i :: 0 <= i < |r| && cards[i].collectionId == Some(id) ==>
      r[i] == cards[i].(collectionId := None)
    ensures forall i :: 0 <= i < |r| && cards[i].collectionId != Some(id) ==> r[i] == cards[i]
  {
    if cards == [] then []
    else
      var c := cards[0];
      [if c.collectionId == Some(id) then c.(collectionId := None) else c] + Orphan(cards[1..], id)
  }

  /** The collections without the deleted id, in their order. */
  function WithoutCollection(collections: seq<Collection>, id: int): (r: seq<Collection>)
    ensures |r| <= |collections|
    ensures forall c :: c in r ==> c in collections && c.id != id
    ensures forall c :: c in collections && c.id != id ==> multiset(r)[c] == multiset(collections)[c]
  {
    Seqs.Filter(collections, (c: Collection) => c.id != id)
  }

  /** Deleting keeps the order of the remaining collections. */
  lemma WithoutCollectionConcat(a: seq<Collection>, b: seq<Collection>, id: int)
    ensures WithoutCollection(a + b, id) == WithoutCollection(a, id) + WithoutCollection(b, id)
  {
    Seqs.FilterConcat(a, b, (c: Collection) => c.id != id);
  }

  /** Deleting an id that is nowhere leaves both lists as they were. */
  lemma DeleteAbsentCollection(collections: seq<Collection>, cards: seq<Cards.Card>, id: int)
    requires forall c :: c in collections ==> c.id != id
    requires forall c :: c in cards ==> c.collectionId != Some(id)
    ensures WithoutCollection(collections, id) == collections
    ensures Orphan(cards, id) == cards
  {
    Seqs.FilterKeepsAll(collections, (c: Collection) => c.id != id);
    var r := Orphan(cards, id);
    forall i | 0 <= i < |cards| ensures r[i] == cards[i] {
      assert cards[i] in cards;
    }
  }

  /** The list stored under the collections key; nothing stored reads as empty. */
  class CollectionStore {
    var blob: Option<seq<Collection>>

    function Collections(): (r: seq<Collection>)
      reads this
      ensures blob.None? ==> r == []
      ensures blob.Some? ==> r == blob.value
    {
      if blob.Some? then blob.value else []
    }

    constructor (stored: Option<seq<Collection>>)
      ensures blob == stored
    {
      blob := stored;
    }

    /**
     * `createCollection`: appends one collection and returns its id. The id
     * is one clock reading (`Date.now()`), the creation time another one
     * (`new Date()`), taken after it.
     */
    method CreateCollection(name: string, description: string, idClock: int, now: int) returns (id: int)
      modifies this
      ensures id == idClock
      ensures blob == Some(old(Collections()) + [Collection(idClock, name, description, now)])
    {
      var collections := Collections();
      var collection := Collection(idClock, name, description, now);
      collections := collections + [collection];
      blob := Some(collections);
      id := collection.id;
    }

    /** `deleteCollection`: first orphans the cards, then drops the collection. */
    method DeleteCollection(id: int, cardStore: Cards.CardStore)
      modifies this, cardStore
      ensures cardStore.blob == Some(Orphan(old(cardStore.Cards()), id))
      ensures blob == Some(WithoutCollection(old(Collections()), id))
    {
      cardStore.blob := Some(Orphan(cardStore.Cards(), id));
      blob := Some(WithoutCollection(Collections(), id));
    }
  }
}
