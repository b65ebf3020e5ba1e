/**
 * The grammar-concept list. A concept is whatever object the caller passed
 * (every field may be missing). Delete and update act on the first concept
 * whose id matches, found with `findIndex`, and write nothing when there is
 * none.
 */
module Grammar {
  import opened Wrappers
  import Seqs

  datatype Concept = Concept(
    id: Option<string>,
    name: Option<string>,
    description: Option<string>,
    summary: Option<string>,
    createdAt: Option<int>,
    collectionId: Option<int>)

  /** The index of the first concept whose id is `id`, or -1. */
  function IndexOfConcept(concepts: seq<Concept>, id: Option<string>): (k: int) {
    Seqs.IndexOf(concepts, (c: Concept) => c.id == id)
  }

  /** Reference definition of the list after a delete: the first match goes. */
  function WithoutFirst(concepts: seq<Concept>, id: Option<string>): (r: seq<Concept>)
    ensures (forall c :: c in concepts ==> c.id != id) ==> r == concepts
    ensures (exists c :: c in concepts && c.id == id) ==> |r| == |concepts| - 1
    ensures forall c :: c in r ==> c in concepts
  {
    if concepts == [] then []
    else if concepts[0].id == id then concepts[1..]
    else [concepts[0]] + WithoutFirst(concepts[1..], id)
  }

  /** Reference definition of the list after an update: the first match is replaced. */
  function ReplaceFirst(concepts: seq<Concept>, concept: Concept): (r: seq<Concept>)
    ensures |r| == |concepts|
    ensures (forall c :: c in concepts ==> c.id != concept.id) ==> r == concepts
    ensures (exists c :: c in concepts && c.id == concept.id) ==> concept in r
  {
    if concepts == [] then []
    else if concepts[0].id == concept.id then [concept] + concepts[1..]
    else [concepts[0]] + ReplaceFirst(concepts[1..], concept)
  }

  /** `splice(index, 1)` at the first match is the reference delete. */
  lemma {:induction false} SpliceIsWithoutFirst(concepts: seq<Concept>, id: Option<string>)
    requires IndexOfConcept(concepts, id) >= 0
    ensures var k := IndexOfConcept(concepts, id);
      concepts[..k] + concepts[k + 1..] == WithoutFirst(concepts, id)
  {
    var k := IndexOfConcept(concepts, id);
    var tail := concepts[1..];
    if concepts[0].id == id {
      assert k == 0;
      assert concepts[..0] + concepts[1..] == tail;
    } else {
      IndexOfConceptTail(concepts, id);
      SpliceIsWithoutFirst(tail, id);
      Seqs.SpliceCons(concepts, k);
      assert WithoutFirst(concepts, id) == [concepts[0]] + WithoutFirst(tail, id);
    }
  }

  /** Past a first concept without the id, the search continues one place further on. */
  lemma IndexOfConceptTail(concepts: seq<Concept>, id: Option<string>)
    requires concepts != [] && concepts[0].id != id
    requires IndexOfConcept(concepts, id) >= 0
    ensures IndexOfConcept(concepts[1..], id) == IndexOfConcept(concepts, id) - 1
  {
  }

  /** Assigning at the first match is the reference update. */
  lemma {:induction false} AssignIsReplaceFirst(concepts: seq<Concept>, concept: Concept)
    requires IndexOfConcept(concepts, concept.id) >= 0
    ensures concepts[IndexOfConcept(concepts, concept.id) := concept] == ReplaceFirst(concepts, concept)
  {
    var k := IndexOfConcept(concepts, concept.id);
    var tail := concepts[1..];
    if concepts[0].id == concept.id {
      assert k == 0;
      assert concepts[0 := concept] == [concept] + tail;
    } else {
      IndexOfConceptTail(concepts, concept.id);
      AssignIsReplaceFirst(tail, concept);
      Seqs.AssignCons(concepts, k, concept);
      assert ReplaceFirst(concepts, concept) == [concepts[0]] + ReplaceFirst(tail, concept);
    }
  }

  /** A delete removes one occurrence only: a second concept with the id survives it. */
  lemma {:induction false} DeleteKeepsLaterDuplicates(concepts: seq<Concept>, id: Option<string>, i: nat, j: nat)
    requires i < j < |concepts| && concepts[i].id == id && concepts[j].id == id
    ensures concepts[j] in WithoutFirst(concepts, id)
  {
    if concepts[0].id == id {
      assert concepts[j] == concepts[1..][j - 1];
    } else {
      DeleteKeepsLaterDuplicates(concepts[1..], id, i - 1, j - 1);
    }
  }

  /** The concepts other than the first match keep their places and order. */
  lemma {:induction false} WithoutFirstKeepsOthers(concepts: seq<Concept>, id: Option<string>)
    requires IndexOfConcept(concepts, id) >= 0
    ensures var k := IndexOfConcept(concepts, id);
      var r := WithoutFirst(concepts, id);
      && |r| == |concepts| - 1
      && (forall j :: 0 <= j < k ==> r[j] == concepts[j])
      && (forall j :: k <= j < |r| ==> r[j] == concepts[j + 1])
  {
    SpliceIsWithoutFirst(concepts, id);
  }

  /** The list stored under the grammar key; nothing stored reads as empty. */
  class GrammarStore {
    var blob: Option<seq<Concept>>

    /** `getGrammarConcepts`. */
    function Concepts(): (r: seq<Concept>)
      reads this
      ensures blob.None? ==> r == []
      ensures blob.Some? ==> r == blob.value
    {
      if blob.Some? then blob.value else []
    }

    constructor (stored: Option<seq<Concept>>)
      ensures blob == stored
    {
      blob := stored;
    }

    /** `addGrammarConcept`: the caller's fields, with a fresh id and creation time. */
    method AddConcept(concept: Concept, freshId: string, now: int)
      modifies this
      ensures blob == Some(old(Concepts()) + [concept.(id := Some(freshId), createdAt := Some(now))])
    {
      var concepts := Concepts();
      var newConcept := concept.(id := Some(freshId), createdAt := Some(now));
      concepts := concepts + [newConcept];
      blob := Some(concepts);
    }

    /** `deleteGrammarConcept`. */
    method DeleteConcept(id: string)
      modifies this
      ensures (forall c :: c in old(Concepts()) ==> c.id != Some(id)) ==> blob == old(blob)
      ensures (exists c :: c in old(Concepts()) && c.id == Some(id)) ==>
        blob == Some(WithoutFirst(old(Concepts()), Some(id)))
    {
      var concepts := Concepts();
      var index := IndexOfConcept(concepts, Some(id));
      if index != -1 {
        SpliceIsWithoutFirst(concepts, Some(id));
        concepts := concepts[..index] + concepts[index + 1..];
        blob := Some(concepts);
      }
    }

    /** `updateGrammarConcept`: the stored concept is replaced by the argument as a whole. */
    method UpdateConcept(concept: Concept)
      modifies this
      ensures (forall c :: c in old(Concepts()) ==> c.id != concept.id) ==> blob == old(blob)
      ensures (exists c :: c in old(Concepts()) && c.id == concept.id) ==>
        blob == Some(ReplaceFirst(old(Concepts()), concept))
    {
      var concepts := Concepts();
      var index := IndexOfConcept(concepts, concept.id);
      if index != -1 {
        AssignIsReplaceFirst(concepts, concept);
        concepts := concepts[index := concept];
        blob := Some(concepts);
      }
    }
  }
}
