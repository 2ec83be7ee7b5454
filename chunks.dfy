/**
 * The records the chunk store returns: a text chunk node of the graph and the score it was
 * returned with. Node identity is the key under which the retriever deduplicates.
 */
module Chunks {
  import opened Wrappers

  /** Graph node identity (`node.identity`); its `toString()` is injective, so ids compare as integers. */
  type Id = int

  /** A `TextChunk` node; each property may be absent. */
  datatype Chunk = Chunk(id: Id, chunkText: Option<string>, lawTitle: Option<string>, sectionNumber: Option<string>)

  /** One `(node, score)` record of a query result. */
  datatype Hit = Hit(node: Chunk, score: real)

  /** The rejection of an external call (database, embedding or language model). */
  datatype Fault = Fault(reason: string)

  /** An embedding of a query text. */
  type Vector = seq<real>

  function Min(a: int, b: int): int
  {
    if a < b then a else b
  }

  /** `property || ""`: an absent or empty property renders as the empty string. */
  function OrEmpty(p: Option<string>): string
  {
    if p.Some? then p.value else ""
  }

  /** The ids of a sequence of records, in order. */
  function IdsOf(hs: seq<Hit>): seq<Id>
  {
    seq(|hs|, i requires 0 <= i < |hs| => hs[i].node.id)
  }

  /** The set of ids of a sequence of records. */
  function IdSet(hs: seq<Hit>): set<Id>
  {
    set h | h in hs :: h.node.id
  }

  /** No two records share a node id. */
  predicate NoDupIds(hs: seq<Hit>)
  {
    forall i, j | 0 <= i < j < |hs| :: hs[i].node.id != hs[j].node.id
  }

  lemma IdSetSnoc(hs: seq<Hit>, h: Hit)
    ensures IdSet(hs + [h]) == IdSet(hs) + {h.node.id}
  {
    assert forall x | x in hs + [h] :: x in hs || x == h;
  }

  /** A sequence of records has at most as many distinct ids as records, and exactly as many without duplicates. */
  lemma {:induction false} IdSetCard(hs: seq<Hit>)
    ensures |IdSet(hs)| <= |hs|
    ensures NoDupIds(hs) ==> |IdSet(hs)| == |hs|
    decreases |hs|
  {
    if hs == [] {
      assert IdSet(hs) == {};
    } else {
      var init, last := hs[..|hs| - 1], hs[|hs| - 1];
      assert hs == init + [last];
      IdSetCard(init);
      IdSetSnoc(init, last);
      if NoDupIds(hs) {
        assert NoDupIds(init);
        assert last.node.id !in IdSet(init);
      }
    }
  }
}
