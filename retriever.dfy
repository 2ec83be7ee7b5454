/**
 * The hybrid retriever of the `/hybrid-chat` handlers: embed the query and run the vector
 * search, run the keyword search when the query has keywords, merge the two result lists by
 * node id, keep the ten best, and expand each of them forward along the chunk chain.
 */
module Retriever {
  import opened Wrappers
  import opened Chunks
  import Keywords
  import Merge
  import Rank
  import Expansion

  /** The score the keyword query attaches to every match (`0.5 as score`). */
  const KeywordScore: real := 0.5

  /**
   * The external collaborators of one retrieval: the embedding model, the vector index query
   * (`queryNodes('text_chunks', 8, $vector)`), the keyword query (chunks whose lower-cased text
   * contains one of the keywords, `LIMIT 8`) and the forward expansion query.
   */
  datatype Store = Store(
    embed: string -> Result<Vector, Fault>,
    queryNodes: Vector -> Result<seq<Hit>, Fault>,
    keywordSearch: seq<string> -> Result<seq<Chunk>, Fault>,
    expandForward: Expansion.Expander)

  /** The lists the handler builds, under the source's names. */
  datatype Retrieval = Retrieval(
    vectorResults: seq<Hit>,
    keywordResults: seq<Hit>,
    combinedResults: seq<Hit>,
    expandedResults: seq<Hit>)

  /** How a request fails: no query text, or a rejected external call. */
  datatype ChatError = InvalidRequest | Failed(fault: Fault)

  /** `!queryText`: a missing or empty query text, which the handlers reject before any call. */
  predicate MissingQuery(queryText: Option<string>)
  {
    queryText.None? || queryText.value == ""
  }

  /** Attach one fixed score to every chunk a query returned. */
  function Scored(cs: seq<Chunk>, score: real): (hs: seq<Hit>)
    ensures |hs| == |cs| && forall i | 0 <= i < |cs| :: hs[i] == Hit(cs[i], score)
  {
    seq(|cs|, i requires 0 <= i < |cs| => Hit(cs[i], score))
  }

  /** `keywordResults`: the keyword query's records when there are keywords, and `[]` without a query otherwise. */
  function KeywordResults(store: Store, keywords: seq<string>): Result<seq<Hit>, Fault>
  {
    if |keywords| > 0 then
      match store.keywordSearch(keywords)
      case Failure(f) => Failure(f)
      case Success(cs) => Success(Scored(cs, KeywordScore))
    else Success([])
  }

  /** The vector results: embed the query, then ask the index. */
  function VectorResults(store: Store, queryText: string): Result<seq<Hit>, Fault>
  {
    match store.embed(queryText)
    case Failure(f) => Failure(f)
    case Success(v) => store.queryNodes(v)
  }

  /** Everything the handler retrieves for a query, or the first rejection of an external call. */
  function Retrieve(store: Store, queryText: string): Result<Retrieval, Fault>
  {
    match VectorResults(store, queryText)
    case Failure(f) => Failure(f)
    case Success(vectorResults) =>
      match KeywordResults(store, Keywords.ExtractKeywords(queryText))
      case Failure(f) => Failure(f)
      case Success(keywordResults) =>
        var combined := Rank.Combine(Merge.Merged(vectorResults + keywordResults));
        match Expansion.ExpandedResults(combined, store.expandForward)
        case Failure(f) => Failure(f)
        case Success(expanded) => Success(Retrieval(vectorResults, keywordResults, combined, expanded))
  }

  /** The handler's retrieval steps, in the source's order. */
  method HybridRetrieve(store: Store, queryText: string) returns (r: Result<Retrieval, Fault>)
    ensures r == Retrieve(store, queryText)
  {
    var queryVector := store.embed(queryText);
    if queryVector.Failure? {
      return Failure(queryVector.error);
    }
    var vectorQuery := store.queryNodes(queryVector.value);
    if vectorQuery.Failure? {
      return Failure(vectorQuery.error);
    }
    var vectorResults := vectorQuery.value;
    var keywords := Keywords.ExtractKeywords(queryText);
    var keywordResults: seq<Hit> := [];
    if |keywords| > 0 {
      var keywordQuery := store.keywordSearch(keywords);
      if keywordQuery.Failure? {
        return Failure(keywordQuery.error);
      }
      keywordResults := Scored(keywordQuery.value, KeywordScore);
    }
    var unique := Merge.MergeUnique(vectorResults + keywordResults);
    var combinedResults := Rank.Combine(unique);
    var expanded := Expansion.Expand(combinedResults, store.expandForward);
    if expanded.Failure? {
      return Failure(expanded.error);
    }
    r := Success(Retrieval(vectorResults, keywordResults, combinedResults, expanded.value));
  }

  /** A merge without duplicate ids holds each record once, so a record not kept is in the multiset difference. */
  lemma NotKeptIsLeftOut(merged: seq<Hit>, kept: seq<Hit>, h: Hit)
    requires NoDupIds(merged) && h in merged && h !in kept
    ensures h in multiset(merged) - multiset(kept)
  {
    assert multiset(kept)[h] == 0;
  }

  /**
   * What one successful retrieval guarantees: keywords absent means no keyword results; the
   * ranked list has no duplicate id, is sorted best first, holds min(10, distinct ids) records,
   * keeps for each id the first record with that id's highest score, and leaves out no record
   * that scores higher than one it keeps; the expansion has no duplicate id and holds every
   * ranked id.
   */
  lemma RetrieveFacts(store: Store, queryText: string)
    requires Retrieve(store, queryText).Success?
    ensures var r := Retrieve(store, queryText).value;
            var all := r.vectorResults + r.keywordResults;
            && (Keywords.ExtractKeywords(queryText) == [] ==> r.keywordResults == [])
            && NoDupIds(r.combinedResults)
            && Rank.SortedDesc(r.combinedResults)
            && |r.combinedResults| == Min(Rank.MaxCombined, |IdSet(all)|)
            && (forall h | h in r.combinedResults :: exists k | 0 <= k < |all| :: all[k] == h && Merge.IsFirstBest(all, k))
            && (forall h, x | h in Merge.Merged(all) && h !in r.combinedResults && x in r.combinedResults :: h.score <= x.score)
            && NoDupIds(r.expandedResults)
            && IdSet(r.combinedResults) <= IdSet(r.expandedResults)
            && |r.combinedResults| <= |r.expandedResults|
  {
    var r := Retrieve(store, queryText).value;
    var all := r.vectorResults + r.keywordResults;
    var merged := Merge.Merged(all);
    Merge.MergedNoDup(all);
    Merge.MergedKeepsFirstBest(all);
    Rank.CombineFacts(merged);
    forall h | h in r.combinedResults ensures h in merged {
      assert h in multiset(r.combinedResults);
    }
    forall h, x | h in merged && h !in r.combinedResults && x in r.combinedResults ensures h.score <= x.score {
      NotKeptIsLeftOut(merged, r.combinedResults, h);
    }
    Expansion.ExpandedResultsFacts(r.combinedResults, store.expandForward);
    Expansion.ExpandedAtLeastRanked(r.combinedResults, store.expandForward);
  }

  /**
   * Without keywords the keyword query is not issued: the retrieval does not depend on it, and
   * a keyword query that would fail does not fail the request.
   */
  lemma NoKeywordsNoKeywordQuery(s1: Store, s2: Store, queryText: string)
    requires Keywords.ExtractKeywords(queryText) == []
    requires s1.embed == s2.embed && s1.queryNodes == s2.queryNodes && s1.expandForward == s2.expandForward
    ensures Retrieve(s1, queryText) == Retrieve(s2, queryText)
  {
    assert KeywordResults(s1, []) == KeywordResults(s2, []) == Success([]);
  }

  /** A two-letter greeting issues no keyword query: it has no keyword results and no keyword query can fail it. */
  lemma GreetingIssuesNoKeywordQuery(s1: Store, s2: Store)
    requires s1.embed == s2.embed && s1.queryNodes == s2.queryNodes && s1.expandForward == s2.expandForward
    ensures Retrieve(s1, "hi?") == Retrieve(s2, "hi?")
    ensures Retrieve(s1, "hi?").Success? ==> Retrieve(s1, "hi?").value.keywordResults == []
  {
    Keywords.GreetingHasNoKeywords();
    NoKeywordsNoKeywordQuery(s1, s2, "hi?");
  }

  /** With keywords the keyword query is issued with exactly those keywords, and its rejection fails the retrieval. */
  lemma KeywordQueryFailureFails(store: Store, queryText: string)
    requires VectorResults(store, queryText).Success?
    requires var ks := Keywords.ExtractKeywords(queryText); ks != [] && store.keywordSearch(ks).Failure?
    ensures Retrieve(store, queryText) == Failure(store.keywordSearch(Keywords.ExtractKeywords(queryText)).error)
  {
  }

  /** The `debug` object of the `/hybrid-chat` response. */
  datatype Debug = Debug(retrievedDocCount: nat, vectorResultsCount: nat, keywordResultsCount: nat, combinedResultsCount: nat)

  function DebugOf(r: Retrieval): Debug
  {
    Debug(|r.expandedResults|, |r.vectorResults|, |r.keywordResults|, |r.combinedResults|)
  }

  lemma IdSetConcatCard(a: seq<Hit>, b: seq<Hit>)
    ensures |IdSet(a + b)| <= |a| + |b|
  {
    IdSetCard(a + b);
  }

  /**
   * The debug counts: at most ten ranked records, no more than the two searches returned
   * together, and no more than the records the expansion emitted.
   */
  lemma DebugBounds(store: Store, queryText: string)
    requires Retrieve(store, queryText).Success?
    ensures var d := DebugOf(Retrieve(store, queryText).value);
            && d.combinedResultsCount <= Min(Rank.MaxCombined, d.vectorResultsCount + d.keywordResultsCount)
            && d.combinedResultsCount <= d.retrievedDocCount
  {
    var r := Retrieve(store, queryText).value;
    RetrieveFacts(store, queryText);
    IdSetConcatCard(r.vectorResults, r.keywordResults);
  }
}
