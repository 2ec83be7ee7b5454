/**
 * Forward expansion of the ranked records. For each ranked record (a "seed") whose id has not
 * been emitted yet, the retriever emits the seed and then every chunk reachable over one or two
 * `NEXT_CHUNK` edges (at most three, as the database returns them) whose id has not been emitted
 * yet, with score 0.4. A `Set` of emitted ids guards both pushes.
 *
 * The specification tags every emitted record with the position of the seed being processed
 * (`origin`) and whether it is that seed; the source's array is the sequence of their records.
 */
module Expansion {
  import opened Wrappers
  import opened Chunks

  /** The score the expansion query attaches to every neighbour (`0.4 as score`). */
  const NeighbourScore: real := 0.4

  /** The expansion query returns at most this many neighbours (`LIMIT 3`). */
  const MaxNeighbours: nat := 3

  /** The expansion query for one node id: the chunks one or two `NEXT_CHUNK` edges ahead. */
  type Expander = Id -> Result<seq<Chunk>, Fault>

  /** An emitted record, the seed position it was emitted for, and whether it is that seed. */
  datatype Entry = Entry(hit: Hit, origin: nat, isSeed: bool)

  /** The records of the entries: the source's `expandedResults`. */
  function HitsOf(es: seq<Entry>): seq<Hit>
  {
    seq(|es|, p requires 0 <= p < |es| => es[p].hit)
  }

  /** The ids emitted so far: the source's `expandedNodes`. */
  function Seen(es: seq<Entry>): set<Id>
  {
    set e | e in es :: e.hit.node.id
  }

  /** The ids emitted while processing seeds before position `k`. */
  function SeenBefore(es: seq<Entry>, k: nat): set<Id>
  {
    set p | 0 <= p < |es| && es[p].origin < k :: es[p].hit.node.id
  }

  /** No id is emitted twice. */
  predicate DistinctIds(es: seq<Entry>)
  {
    forall p, q | 0 <= p < q < |es| :: es[p].hit.node.id != es[q].hit.node.id
  }

  /** The inner loop over the neighbours of seed `o`: unseen ones are appended, in query order. */
  function AddNeighbours(es: seq<Entry>, cs: seq<Chunk>, o: nat): seq<Entry>
    decreases |cs|
  {
    if cs == [] then es
    else
      var before := AddNeighbours(es, cs[..|cs| - 1], o);
      var c := cs[|cs| - 1];
      if c.id in Seen(before) then before else before + [Entry(Hit(c, NeighbourScore), o, false)]
  }

  /** One turn of the outer loop, for the seed at position `o`. */
  function VisitSeed(es: seq<Entry>, seed: Hit, o: nat, expand: Expander): Result<seq<Entry>, Fault>
  {
    if seed.node.id in Seen(es) then Success(es)
    else
      match expand(seed.node.id)
      case Failure(f) => Failure(f)
      case Success(cs) => Success(AddNeighbours(es + [Entry(seed, o, true)], cs, o))
  }

  /** The outer loop over all seeds; a failing expansion query fails the whole request. */
  function Expansion(seeds: seq<Hit>, expand: Expander): Result<seq<Entry>, Fault>
    decreases |seeds|
  {
    if seeds == [] then Success([])
    else
      match Expansion(seeds[..|seeds| - 1], expand)
      case Failure(f) => Failure(f)
      case Success(es) => VisitSeed(es, seeds[|seeds| - 1], |seeds| - 1, expand)
  }

  /** `expandedResults`, or the failure of the first expansion query that failed. */
  function ExpandedResults(seeds: seq<Hit>, expand: Expander): Result<seq<Hit>, Fault>
  {
    match Expansion(seeds, expand)
    case Failure(f) => Failure(f)
    case Success(es) => Success(HitsOf(es))
  }

  /** The ids of a list of chunks. */
  function ChunkIds(cs: seq<Chunk>): set<Id>
  {
    set c | c in cs :: c.id
  }

  lemma SeenSnoc(es: seq<Entry>, e: Entry)
    ensures Seen(es + [e]) == Seen(es) + {e.hit.node.id}
  {
    assert forall x | x in es + [e] :: x in es || x == e;
  }

  lemma SeenPrefix(es: seq<Entry>, r: seq<Entry>)
    requires |es| <= |r| && r[..|es|] == es
    ensures Seen(es) <= Seen(r)
  {
    forall x | x in es ensures x in r {
      var p :| 0 <= p < |es| && es[p] == x;
      assert r[p] == x;
    }
  }

  /** `r` is `es` followed by neighbours of seed `o`, drawn from `cs` and scored 0.4. */
  ghost predicate NeighboursAppended(es: seq<Entry>, r: seq<Entry>, cs: seq<Chunk>, o: nat)
  {
    && |es| <= |r| && r[..|es|] == es
    && forall p | |es| <= p < |r| ::
         r[p] == Entry(Hit(r[p].hit.node, NeighbourScore), o, false) && r[p].hit.node in cs
  }

  lemma {:induction false} AddNeighboursAppends(es: seq<Entry>, cs: seq<Chunk>, o: nat)
    ensures NeighboursAppended(es, AddNeighbours(es, cs, o), cs, o)
    decreases |cs|
  {
    if cs != [] {
      var init, c := cs[..|cs| - 1], cs[|cs| - 1];
      AddNeighboursAppends(es, init, o);
      var before := AddNeighbours(es, init, o);
      var r := AddNeighbours(es, cs, o);
      assert forall x | x in init :: x in cs;
      if r != before {
        assert r[..|es|] == before[..|es|];
        assert forall p | |es| <= p < |before| :: r[p] == before[p];
      }
    }
  }

  /** After the inner loop, the emitted ids are the earlier ones and all the neighbours' ids. */
  lemma {:induction false} AddNeighboursSeen(es: seq<Entry>, cs: seq<Chunk>, o: nat)
    ensures Seen(AddNeighbours(es, cs, o)) == Seen(es) + ChunkIds(cs)
    decreases |cs|
  {
    if cs != [] {
      var init, c := cs[..|cs| - 1], cs[|cs| - 1];
      AddNeighboursSeen(es, init, o);
      var before := AddNeighbours(es, init, o);
      assert ChunkIds(cs) == ChunkIds(init) + {c.id} by {
        assert forall x | x in cs :: x in init || x == c;
        assert forall x | x in init :: x in cs;
      }
      if c.id !in Seen(before) {
        SeenSnoc(before, Entry(Hit(c, NeighbourScore), o, false));
      }
    }
  }

  /** The inner loop never emits an id twice. */
  lemma {:induction false} AddNeighboursDistinct(es: seq<Entry>, cs: seq<Chunk>, o: nat)
    requires DistinctIds(es)
    ensures DistinctIds(AddNeighbours(es, cs, o))
    decreases |cs|
  {
    if cs != [] {
      var init, c := cs[..|cs| - 1], cs[|cs| - 1];
      AddNeighboursDistinct(es, init, o);
      var before := AddNeighbours(es, init, o);
      if c.id !in Seen(before) {
        forall p | 0 <= p < |before| ensures before[p].hit.node.id != c.id {
          assert before[p] in before;
        }
      }
    }
  }

  /**
   * `r` is `es` followed by the block of seed `o`: nothing when its id was already emitted,
   * otherwise the seed itself and then neighbours its expansion query returned, scored 0.4.
   */
  ghost predicate BlockAppended(es: seq<Entry>, r: seq<Entry>, seed: Hit, o: nat, expand: Expander)
  {
    && |es| <= |r| && r[..|es|] == es
    && (seed.node.id in Seen(es) ==> r == es)
    && (seed.node.id !in Seen(es) ==>
          && |es| < |r| && r[|es|] == Entry(seed, o, true) && expand(seed.node.id).Success?
          && (forall p | |es| < p < |r| ::
                r[p] == Entry(Hit(r[p].hit.node, NeighbourScore), o, false)
                && r[p].hit.node in expand(seed.node.id).value))
  }

  lemma VisitSeedAppends(es: seq<Entry>, seed: Hit, o: nat, expand: Expander)
    requires VisitSeed(es, seed, o, expand).Success?
    ensures BlockAppended(es, VisitSeed(es, seed, o, expand).value, seed, o, expand)
  {
    if seed.node.id !in Seen(es) {
      var r := VisitSeed(es, seed, o, expand).value;
      var es1 := es + [Entry(seed, o, true)];
      AddNeighboursAppends(es1, expand(seed.node.id).value, o);
      assert r[..|es|] == es1[..|es|];
      assert r[|es|] == es1[|es|];
    }
  }

  lemma VisitSeedSeen(es: seq<Entry>, seed: Hit, o: nat, expand: Expander)
    requires VisitSeed(es, seed, o, expand).Success?
    ensures var r := VisitSeed(es, seed, o, expand).value;
            seed.node.id in Seen(r) && Seen(es) <= Seen(r)
  {
    if seed.node.id !in Seen(es) {
      var e := Entry(seed, o, true);
      SeenSnoc(es, e);
      AddNeighboursSeen(es + [e], expand(seed.node.id).value, o);
    }
  }

  lemma VisitSeedDistinct(es: seq<Entry>, seed: Hit, o: nat, expand: Expander)
    requires VisitSeed(es, seed, o, expand).Success? && DistinctIds(es)
    ensures DistinctIds(VisitSeed(es, seed, o, expand).value)
  {
    if seed.node.id !in Seen(es) {
      var es1 := es + [Entry(seed, o, true)];
      forall p | 0 <= p < |es| ensures es[p].hit.node.id != seed.node.id {
        assert es[p] in es;
      }
      AddNeighboursDistinct(es1, expand(seed.node.id).value, o);
    }
  }

  /** Once a prefix of the seeds fails, the whole expansion fails with the same fault. */
  lemma {:induction false} ExpansionFailureSticks(seeds: seq<Hit>, k: nat, expand: Expander)
    requires k <= |seeds| && Expansion(seeds[..k], expand).Failure?
    ensures Expansion(seeds, expand) == Expansion(seeds[..k], expand)
    decreases |seeds| - k
  {
    if k < |seeds| {
      var n := |seeds|;
      assert seeds[..n - 1][..k] == seeds[..k];
      ExpansionFailureSticks(seeds[..n - 1], k, expand);
    } else {
      assert seeds[..k] == seeds;
    }
  }

  /** The expansion of all seeds is that of the first `n - 1` followed by the last seed's block. */
  lemma ExpansionStep(seeds: seq<Hit>, expand: Expander)
    requires seeds != [] && Expansion(seeds, expand).Success?
    ensures var n := |seeds|;
            && Expansion(seeds[..n - 1], expand).Success?
            && VisitSeed(Expansion(seeds[..n - 1], expand).value, seeds[n - 1], n - 1, expand)
               == Expansion(seeds, expand)
            && BlockAppended(Expansion(seeds[..n - 1], expand).value, Expansion(seeds, expand).value,
                             seeds[n - 1], n - 1, expand)
  {
    var n := |seeds|;
    VisitSeedAppends(Expansion(seeds[..n - 1], expand).value, seeds[n - 1], n - 1, expand);
  }

  /** Every seed's id is emitted. */
  ghost predicate Covers(seeds: seq<Hit>, es: seq<Entry>)
  {
    forall k | 0 <= k < |seeds| :: seeds[k].node.id in Seen(es)
  }

  /** Blocks appear in seed order. */
  ghost predicate OriginsOrdered(es: seq<Entry>, n: nat)
  {
    && (forall p | 0 <= p < |es| :: es[p].origin < n)
    && (forall p, q | 0 <= p < q < |es| :: es[p].origin <= es[q].origin)
  }

  /** An emitted seed is the seed's own record, score included. */
  ghost predicate SeedsFaithful(seeds: seq<Hit>, es: seq<Entry>)
  {
    forall p | 0 <= p < |es| && es[p].isSeed :: es[p].origin < |seeds| && es[p].hit == seeds[es[p].origin]
  }

  /** An emitted neighbour is a chunk its seed's expansion query returned, scored 0.4. */
  ghost predicate NeighboursFaithful(seeds: seq<Hit>, expand: Expander, es: seq<Entry>)
  {
    forall p | 0 <= p < |es| && !es[p].isSeed ::
      && es[p].origin < |seeds|
      && es[p].hit.score == NeighbourScore
      && expand(seeds[es[p].origin].node.id).Success?
      && es[p].hit.node in expand(seeds[es[p].origin].node.id).value
  }

  /** Each block starts with its seed and holds no other seed. */
  ghost predicate SeedsOpenBlocks(es: seq<Entry>)
  {
    && (forall p | 0 <= p < |es| && !es[p].isSeed :: 0 < p && es[p - 1].origin == es[p].origin)
    && (forall p, q | 0 <= p < q < |es| && es[p].origin == es[q].origin :: !es[q].isSeed)
  }

  /**
   * The shape of `expandedResults`: no id twice, every seed's id present, and blocks in seed
   * order, each opened by its seed with the seed's own record and followed only by neighbours of
   * that seed scored 0.4.
   */
  ghost predicate WellFormed(seeds: seq<Hit>, expand: Expander, es: seq<Entry>)
  {
    && DistinctIds(es)
    && Covers(seeds, es)
    && OriginsOrdered(es, |seeds|)
    && SeedsFaithful(seeds, es)
    && NeighboursFaithful(seeds, expand, es)
    && SeedsOpenBlocks(es)
  }

  lemma CoversStep(seeds: seq<Hit>, es: seq<Entry>, r: seq<Entry>)
    requires seeds != [] && Covers(seeds[..|seeds| - 1], es)
    requires Seen(es) <= Seen(r) && seeds[|seeds| - 1].node.id in Seen(r)
    ensures Covers(seeds, r)
  {
    var n := |seeds|;
    forall k | 0 <= k < n ensures seeds[k].node.id in Seen(r) {
      if k < n - 1 {
        assert seeds[..n - 1][k] == seeds[k];
      }
    }
  }

  lemma OriginsStep(es: seq<Entry>, r: seq<Entry>, n: nat)
    requires OriginsOrdered(es, n) && |es| <= |r| && r[..|es|] == es
    requires forall p | |es| <= p < |r| :: r[p].origin == n
    ensures OriginsOrdered(r, n + 1)
  {
    assert forall p | 0 <= p < |es| :: r[p] == es[p];
  }

  lemma SeedsFaithfulStep(seeds: seq<Hit>, expand: Expander, es: seq<Entry>, r: seq<Entry>)
    requires seeds != [] && SeedsFaithful(seeds[..|seeds| - 1], es)
    requires BlockAppended(es, r, seeds[|seeds| - 1], |seeds| - 1, expand)
    ensures SeedsFaithful(seeds, r)
  {
    var n := |seeds|;
    forall p | 0 <= p < |r| && r[p].isSeed ensures r[p].origin < n && r[p].hit == seeds[r[p].origin] {
      if p < |es| {
        assert r[p] == es[p];
        assert seeds[..n - 1][es[p].origin] == seeds[es[p].origin];
      }
    }
  }

  lemma NeighboursFaithfulStep(seeds: seq<Hit>, expand: Expander, es: seq<Entry>, r: seq<Entry>)
    requires seeds != [] && NeighboursFaithful(seeds[..|seeds| - 1], expand, es)
    requires BlockAppended(es, r, seeds[|seeds| - 1], |seeds| - 1, expand)
    ensures NeighboursFaithful(seeds, expand, r)
  {
    var n := |seeds|;
    forall p | 0 <= p < |r| && !r[p].isSeed
      ensures r[p].origin < n && r[p].hit.score == NeighbourScore
      ensures expand(seeds[r[p].origin].node.id).Success?
      ensures r[p].hit.node in expand(seeds[r[p].origin].node.id).value
    {
      if p < |es| {
        assert r[p] == es[p];
        assert seeds[..n - 1][es[p].origin] == seeds[es[p].origin];
      }
    }
  }

  lemma SeedsOpenBlocksStep(es: seq<Entry>, r: seq<Entry>, seed: Hit, o: nat, expand: Expander)
    requires SeedsOpenBlocks(es) && (forall p | 0 <= p < |es| :: es[p].origin < o)
    requires BlockAppended(es, r, seed, o, expand)
    ensures SeedsOpenBlocks(r)
  {
    assert forall p | 0 <= p < |es| :: r[p] == es[p];
  }

  lemma WellFormedStep(seeds: seq<Hit>, expand: Expander, es: seq<Entry>, r: seq<Entry>)
    requires seeds != [] && WellFormed(seeds[..|seeds| - 1], expand, es)
    requires BlockAppended(es, r, seeds[|seeds| - 1], |seeds| - 1, expand)
    requires DistinctIds(r) && Seen(es) <= Seen(r) && seeds[|seeds| - 1].node.id in Seen(r)
    ensures WellFormed(seeds, expand, r)
  {
    var n := |seeds|;
    CoversStep(seeds, es, r);
    OriginsStep(es, r, n - 1);
    SeedsFaithfulStep(seeds, expand, es, r);
    NeighboursFaithfulStep(seeds, expand, es, r);
    SeedsOpenBlocksStep(es, r, seeds[n - 1], n - 1, expand);
  }

  /** Every successful expansion is well formed. */
  lemma {:induction false} ExpansionWellFormed(seeds: seq<Hit>, expand: Expander)
    requires Expansion(seeds, expand).Success?
    ensures WellFormed(seeds, expand, Expansion(seeds, expand).value)
    decreases |seeds|
  {
    if seeds != [] {
      var n := |seeds|;
      ExpansionStep(seeds, expand);
      ExpansionWellFormed(seeds[..n - 1], expand);
      var es := Expansion(seeds[..n - 1], expand).value;
      VisitSeedSeen(es, seeds[n - 1], n - 1, expand);
      VisitSeedDistinct(es, seeds[n - 1], n - 1, expand);
      WellFormedStep(seeds, expand, es, Expansion(seeds, expand).value);
    }
  }

  /** Some entry belongs to the block of seed `k`. */
  ghost predicate Visited(es: seq<Entry>, k: nat)
  {
    exists p | 0 <= p < |es| :: es[p].origin == k
  }

  /** The block of seed `k` holds that seed. */
  ghost predicate SeedEmitted(es: seq<Entry>, k: nat)
  {
    exists p | 0 <= p < |es| :: es[p].origin == k && es[p].isSeed
  }

  /**
   * A seed is skipped, neither emitted nor expanded, exactly when an earlier seed's block
   * already emitted its id; a seed that is not skipped is emitted in its own block.
   */
  ghost predicate SkipsSeenSeeds(seeds: seq<Hit>, es: seq<Entry>)
  {
    forall k | 0 <= k < |seeds| ::
      && (Visited(es, k) <==> seeds[k].node.id !in SeenBefore(es, k))
      && (Visited(es, k) ==> SeedEmitted(es, k))
  }

  /** Entries appended with origin at least `k` change neither the ids seen before `k` nor block `j < k`. */
  lemma AppendKeepsEarlierBlocks(es: seq<Entry>, r: seq<Entry>, k: nat)
    requires |es| <= |r| && r[..|es|] == es
    requires forall p | |es| <= p < |r| :: r[p].origin >= k
    ensures SeenBefore(r, k) == SeenBefore(es, k)
    ensures forall j | 0 <= j < k :: (Visited(r, j) <==> Visited(es, j)) && (SeedEmitted(r, j) <==> SeedEmitted(es, j))
  {
    assert forall p | 0 <= p < |es| :: r[p] == es[p];
    forall id | id in SeenBefore(r, k) ensures id in SeenBefore(es, k) {
      var p :| 0 <= p < |r| && r[p].origin < k && r[p].hit.node.id == id;
    }
    forall j | 0 <= j < k && Visited(r, j) ensures Visited(es, j) {
      var p :| 0 <= p < |r| && r[p].origin == j;
    }
    forall j | 0 <= j < k && SeedEmitted(r, j) ensures SeedEmitted(es, j) {
      var p :| 0 <= p < |r| && r[p].origin == j && r[p].isSeed;
    }
  }

  lemma SeenBeforeAll(es: seq<Entry>, k: nat)
    requires forall p | 0 <= p < |es| :: es[p].origin < k
    ensures SeenBefore(es, k) == Seen(es)
  {
    forall id | id in Seen(es) ensures id in SeenBefore(es, k) {
      var x :| x in es && x.hit.node.id == id;
      var p :| 0 <= p < |es| && es[p] == x;
    }
  }

  lemma SkipsStep(seeds: seq<Hit>, expand: Expander, es: seq<Entry>, r: seq<Entry>)
    requires seeds != [] && SkipsSeenSeeds(seeds[..|seeds| - 1], es)
    requires forall p | 0 <= p < |es| :: es[p].origin < |seeds| - 1
    requires BlockAppended(es, r, seeds[|seeds| - 1], |seeds| - 1, expand)
    ensures SkipsSeenSeeds(seeds, r)
  {
    var n := |seeds|;
    SeenBeforeAll(es, n - 1);
    AppendKeepsEarlierBlocks(es, r, n - 1);
    forall k | 0 <= k < n - 1 ensures SeenBefore(r, k) == SeenBefore(es, k) && seeds[k] == seeds[..n - 1][k] {
      AppendKeepsEarlierBlocks(es, r, k);
    }
    assert !Visited(es, n - 1);
    if seeds[n - 1].node.id !in Seen(es) {
      assert r[|es|].origin == n - 1 && r[|es|].isSeed;
    }
  }

  lemma {:induction false} ExpansionSkipsSeenSeeds(seeds: seq<Hit>, expand: Expander)
    requires Expansion(seeds, expand).Success?
    ensures SkipsSeenSeeds(seeds, Expansion(seeds, expand).value)
    decreases |seeds|
  {
    if seeds != [] {
      var n := |seeds|;
      ExpansionStep(seeds, expand);
      ExpansionSkipsSeenSeeds(seeds[..n - 1], expand);
      ExpansionWellFormed(seeds[..n - 1], expand);
      SkipsStep(seeds, expand, Expansion(seeds[..n - 1], expand).value, Expansion(seeds, expand).value);
    }
  }

  /**
   * The neighbours of one expansion query that get emitted, in query order: a chunk is kept when
   * its id is neither among the ids `seen` already nor the id of a chunk kept before it.
   */
  function Fresh(cs: seq<Chunk>, seen: set<Id>): seq<Chunk>
    decreases |cs|
  {
    if cs == [] then []
    else if cs[0].id in seen then Fresh(cs[1..], seen)
    else [cs[0]] + Fresh(cs[1..], seen + {cs[0].id})
  }

  /** The entries of neighbours emitted for seed `o`, scored 0.4. */
  function NeighbourEntries(cs: seq<Chunk>, o: nat): (es: seq<Entry>)
    ensures |es| == |cs| && forall i | 0 <= i < |cs| :: es[i] == Entry(Hit(cs[i], NeighbourScore), o, false)
  {
    seq(|cs|, i requires 0 <= i < |cs| => Entry(Hit(cs[i], NeighbourScore), o, false))
  }

  /** The entries of the block of seed `k`, in their order. */
  function BlockOf(es: seq<Entry>, k: nat): seq<Entry>
    decreases |es|
  {
    if es == [] then []
    else BlockOf(es[..|es| - 1], k) + (if es[|es| - 1].origin == k then [es[|es| - 1]] else [])
  }

  lemma ChunkIdsCons(c: Chunk, cs: seq<Chunk>)
    ensures ChunkIds([c] + cs) == {c.id} + ChunkIds(cs)
  {
    assert forall x | x in [c] + cs :: x == c || x in cs;
  }

  /** A query's kept neighbours carry exactly its ids that were not seen. */
  lemma {:induction false} FreshIds(cs: seq<Chunk>, seen: set<Id>)
    ensures ChunkIds(Fresh(cs, seen)) == ChunkIds(cs) - seen
    decreases |cs|
  {
    if cs != [] {
      assert cs == [cs[0]] + cs[1..];
      ChunkIdsCons(cs[0], cs[1..]);
      if cs[0].id in seen {
        FreshIds(cs[1..], seen);
      } else {
        FreshIds(cs[1..], seen + {cs[0].id});
        ChunkIdsCons(cs[0], Fresh(cs[1..], seen + {cs[0].id}));
      }
    }
  }

  /** Filtering from the front agrees with the loop's one-chunk-at-a-time view. */
  lemma {:induction false} FreshSnoc(cs: seq<Chunk>, c: Chunk, seen: set<Id>)
    ensures Fresh(cs + [c], seen) == Fresh(cs, seen) + (if c.id in seen + ChunkIds(cs) then [] else [c])
    decreases |cs|
  {
    if cs == [] {
      assert ChunkIds(cs) == {};
    } else {
      var d, rest := cs[0], cs[1..];
      assert (cs + [c])[0] == d && (cs + [c])[1..] == rest + [c];
      assert cs == [d] + rest;
      ChunkIdsCons(d, rest);
      if d.id in seen {
        FreshSnoc(rest, c, seen);
      } else {
        FreshSnoc(rest, c, seen + {d.id});
        assert seen + {d.id} + ChunkIds(rest) == seen + ChunkIds(cs);
      }
    }
  }

  lemma NeighbourEntriesSnoc(cs: seq<Chunk>, c: Chunk, o: nat)
    ensures NeighbourEntries(cs + [c], o) == NeighbourEntries(cs, o) + [Entry(Hit(c, NeighbourScore), o, false)]
  {
  }

  /** The inner loop appends exactly the entries of the query's unseen neighbours, in query order. */
  lemma {:induction false} AddNeighboursFresh(es: seq<Entry>, cs: seq<Chunk>, o: nat)
    ensures AddNeighbours(es, cs, o) == es + NeighbourEntries(Fresh(cs, Seen(es)), o)
    decreases |cs|
  {
    if cs == [] {
      assert es + NeighbourEntries([], o) == es;
    } else {
      var init, c := cs[..|cs| - 1], cs[|cs| - 1];
      assert cs == init + [c];
      AddNeighboursFresh(es, init, o);
      AddNeighboursSeen(es, init, o);
      FreshSnoc(init, c, Seen(es));
      var f := Fresh(init, Seen(es));
      if c.id !in Seen(es) + ChunkIds(init) {
        NeighbourEntriesSnoc(f, c, o);
        assert es + NeighbourEntries(f, o) + [Entry(Hit(c, NeighbourScore), o, false)]
            == es + (NeighbourEntries(f, o) + [Entry(Hit(c, NeighbourScore), o, false)]);
      } else {
        assert f + [] == f;
      }
    }
  }

  lemma {:induction false} BlockOfConcat(a: seq<Entry>, b: seq<Entry>, k: nat)
    ensures BlockOf(a + b, k) == BlockOf(a, k) + BlockOf(b, k)
    decreases |b|
  {
    if b == [] {
      assert a + b == a;
    } else {
      var init := b[..|b| - 1];
      assert (a + b)[..|a + b| - 1] == a + init;
      BlockOfConcat(a, init, k);
    }
  }

  lemma {:induction false} BlockOfUniform(es: seq<Entry>, k: nat, o: nat)
    requires forall p | 0 <= p < |es| :: es[p].origin == o
    ensures BlockOf(es, k) == if o == k then es else []
    decreases |es|
  {
    if es != [] {
      BlockOfUniform(es[..|es| - 1], k, o);
      assert es == es[..|es| - 1] + [es[|es| - 1]];
    }
  }

  /**
   * The block of seed `k` (record `seed`): empty when the seed was not visited, else the seed's
   * own record followed by the neighbours its query returned whose ids were not emitted before,
   * in query order, scored 0.4.
   */
  ghost predicate BlockComplete(seed: Hit, k: nat, expand: Expander, es: seq<Entry>)
  {
    && (!Visited(es, k) ==> BlockOf(es, k) == [])
    && (Visited(es, k) ==>
          && expand(seed.node.id).Success?
          && BlockOf(es, k) == [Entry(seed, k, true)]
               + NeighbourEntries(Fresh(expand(seed.node.id).value, SeenBefore(es, k) + {seed.node.id}), k))
  }

  /** Every seed's block is complete. */
  ghost predicate BlocksComplete(seeds: seq<Hit>, expand: Expander, es: seq<Entry>)
  {
    forall k | 0 <= k < |seeds| :: BlockComplete(seeds[k], k, expand, es)
  }

  /** Appending entries of a later seed leaves an earlier block as it was. */
  lemma EarlierBlockKept(es: seq<Entry>, tail: seq<Entry>, seed: Hit, k: nat, o: nat, expand: Expander)
    requires k < o && forall p | 0 <= p < |tail| :: tail[p].origin == o
    requires BlockComplete(seed, k, expand, es)
    ensures BlockComplete(seed, k, expand, es + tail)
  {
    var r := es + tail;
    assert r[..|es|] == es;
    AppendKeepsEarlierBlocks(es, r, k);
    AppendKeepsEarlierBlocks(es, r, k + 1);
    BlockOfUniform(tail, k, o);
    BlockOfConcat(es, tail, k);
    assert BlockOf(es, k) + [] == BlockOf(es, k);
  }

  /** The block a visit appends is complete. */
  lemma NewBlockComplete(es: seq<Entry>, r: seq<Entry>, seed: Hit, o: nat, expand: Expander)
    requires forall p | 0 <= p < |es| :: es[p].origin < o
    requires VisitSeed(es, seed, o, expand) == Success(r)
    ensures BlockComplete(seed, o, expand, r)
  {
    BlockOfNone(es, o);
    if seed.node.id !in Seen(es) {
      NewBlockOfUnseenSeed(es, seed, o, expand);
    } else {
      assert !Visited(es, o);
    }
  }

  /** A seed not emitted before opens a block of its record and its query's unseen neighbours. */
  lemma NewBlockOfUnseenSeed(es: seq<Entry>, seed: Hit, o: nat, expand: Expander)
    requires forall p | 0 <= p < |es| :: es[p].origin < o
    requires BlockOf(es, o) == []
    requires seed.node.id !in Seen(es) && VisitSeed(es, seed, o, expand).Success?
    ensures BlockComplete(seed, o, expand, VisitSeed(es, seed, o, expand).value)
  {
    var r := VisitSeed(es, seed, o, expand).value;
    var e := Entry(seed, o, true);
    var cs := expand(seed.node.id).value;
    var block := [e] + NeighbourEntries(Fresh(cs, Seen(es) + {seed.node.id}), o);
    assert r == es + block by {
      AddNeighboursFresh(es + [e], cs, o);
      SeenSnoc(es, e);
    }
    assert forall p | 0 <= p < |block| :: block[p].origin == o;
    assert SeenBefore(r, o) == Seen(es) by {
      assert r[..|es|] == es;
      AppendKeepsEarlierBlocks(es, r, o);
      SeenBeforeAll(es, o);
    }
    assert BlockOf(r, o) == block by {
      BlockOfUniform(block, o, o);
      BlockOfConcat(es, block, o);
      assert [] + block == block;
    }
    assert r[|es|] == e;
  }

  lemma BlocksStep(seeds: seq<Hit>, expand: Expander, es: seq<Entry>, r: seq<Entry>)
    requires seeds != [] && BlocksComplete(seeds[..|seeds| - 1], expand, es)
    requires forall p | 0 <= p < |es| :: es[p].origin < |seeds| - 1
    requires VisitSeed(es, seeds[|seeds| - 1], |seeds| - 1, expand) == Success(r)
    ensures BlocksComplete(seeds, expand, r)
  {
    var n := |seeds|;
    VisitSeedAppends(es, seeds[n - 1], n - 1, expand);
    var tail := r[|es|..];
    assert r == es + tail;
    forall k | 0 <= k < n ensures BlockComplete(seeds[k], k, expand, r) {
      if k < n - 1 {
        assert seeds[..n - 1][k] == seeds[k];
        EarlierBlockKept(es, tail, seeds[k], k, n - 1, expand);
      } else {
        NewBlockComplete(es, r, seeds[n - 1], n - 1, expand);
      }
    }
  }

  lemma {:induction false} BlockOfNone(es: seq<Entry>, k: nat)
    requires forall p | 0 <= p < |es| :: es[p].origin != k
    ensures BlockOf(es, k) == []
    decreases |es|
  {
    if es != [] {
      BlockOfNone(es[..|es| - 1], k);
    }
  }

  /** Every successful expansion emits, for each visited seed, exactly its unseen neighbours. */
  lemma {:induction false} ExpansionBlocksComplete(seeds: seq<Hit>, expand: Expander)
    requires Expansion(seeds, expand).Success?
    ensures BlocksComplete(seeds, expand, Expansion(seeds, expand).value)
    decreases |seeds|
  {
    if seeds != [] {
      var n := |seeds|;
      ExpansionStep(seeds, expand);
      ExpansionBlocksComplete(seeds[..n - 1], expand);
      ExpansionWellFormed(seeds[..n - 1], expand);
      BlocksStep(seeds, expand, Expansion(seeds[..n - 1], expand).value, Expansion(seeds, expand).value);
    }
  }

  /** The ids a complete block's query returned are all emitted. */
  lemma BlockIdsEmitted(es: seq<Entry>, seed: Hit, k: nat, expand: Expander)
    requires Visited(es, k) && BlockComplete(seed, k, expand, es)
    ensures expand(seed.node.id).Success? && ChunkIds(expand(seed.node.id).value) <= Seen(es)
  {
    var cs := expand(seed.node.id).value;
    var seen := SeenBefore(es, k) + {seed.node.id};
    var f := Fresh(cs, seen);
    var b := BlockOf(es, k);
    FreshIds(cs, seen);
    BlockOfSubset(es, k);
    assert b[0] in es;
    forall id | id in SeenBefore(es, k) ensures id in Seen(es) {
      var p :| 0 <= p < |es| && es[p].origin < k && es[p].hit.node.id == id;
      assert es[p] in es;
    }
    forall id | id in ChunkIds(f) ensures id in Seen(es) {
      var c :| c in f && c.id == id;
      var i :| 0 <= i < |f| && f[i] == c;
      assert b[1 + i] == Entry(Hit(c, NeighbourScore), k, false);
      assert b[1 + i] in es;
    }
  }

  /**
   * No neighbour a visited seed's query returned is lost: its id is emitted, either earlier or
   * in that seed's block.
   */
  lemma FetchedNeighboursEmitted(seeds: seq<Hit>, expand: Expander, k: nat)
    requires Expansion(seeds, expand).Success? && k < |seeds|
    requires Visited(Expansion(seeds, expand).value, k)
    ensures expand(seeds[k].node.id).Success?
    ensures ChunkIds(expand(seeds[k].node.id).value) <= Seen(Expansion(seeds, expand).value)
  {
    ExpansionBlocksComplete(seeds, expand);
    BlockIdsEmitted(Expansion(seeds, expand).value, seeds[k], k, expand);
  }

  lemma {:induction false} BlockOfSubset(es: seq<Entry>, k: nat)
    ensures forall e | e in BlockOf(es, k) :: e in es
    decreases |es|
  {
    if es != [] {
      BlockOfSubset(es[..|es| - 1], k);
      assert forall e | e in es[..|es| - 1] :: e in es;
    }
  }

  /**
   * `expandedResults` never holds an id twice, holds every ranked id, and is the record list of
   * a well-formed expansion that skips exactly the seeds an earlier block already emitted and
   * emits, for every other seed, exactly its unseen neighbours in query order.
   */
  lemma ExpandedResultsFacts(seeds: seq<Hit>, expand: Expander)
    requires ExpandedResults(seeds, expand).Success?
    ensures var hs := ExpandedResults(seeds, expand).value;
            NoDupIds(hs) && IdSet(seeds) <= IdSet(hs)
    ensures var es := Expansion(seeds, expand).value;
            && HitsOf(es) == ExpandedResults(seeds, expand).value
            && WellFormed(seeds, expand, es) && SkipsSeenSeeds(seeds, es)
            && BlocksComplete(seeds, expand, es)
  {
    ExpansionWellFormed(seeds, expand);
    ExpansionBlocksComplete(seeds, expand);
    ExpansionSkipsSeenSeeds(seeds, expand);
    HitsOfIds(Expansion(seeds, expand).value, seeds);
  }

  lemma HitsOfIds(es: seq<Entry>, seeds: seq<Hit>)
    requires DistinctIds(es) && Covers(seeds, es)
    ensures NoDupIds(HitsOf(es)) && IdSet(seeds) <= IdSet(HitsOf(es))
  {
    var hs := HitsOf(es);
    forall id | id in IdSet(seeds) ensures id in IdSet(hs) {
      var s :| s in seeds && s.node.id == id;
      var k :| 0 <= k < |seeds| && seeds[k] == s;
      assert id in Seen(es);
      var e :| e in es && e.hit.node.id == id;
      var p :| 0 <= p < |es| && es[p] == e;
      assert hs[p] in hs;
    }
  }

  /**
   * A ranked record whose id an earlier seed's expansion already emitted keeps only that
   * neighbour entry: its one occurrence carries score 0.4, not its own ranked score.
   */
  lemma ReachedSeedHasNeighbourScore(seeds: seq<Hit>, expand: Expander, k: nat)
    requires Expansion(seeds, expand).Success? && NoDupIds(seeds)
    requires k < |seeds| && seeds[k].node.id in SeenBefore(Expansion(seeds, expand).value, k)
    ensures var es := Expansion(seeds, expand).value;
            exists p | 0 <= p < |es| :: es[p].hit.node.id == seeds[k].node.id
              && !es[p].isSeed && es[p].hit.score == NeighbourScore
              && forall q | 0 <= q < |es| && es[q].hit.node.id == seeds[k].node.id :: q == p
  {
    var es := Expansion(seeds, expand).value;
    ExpansionWellFormed(seeds, expand);
    var p :| 0 <= p < |es| && es[p].origin < k && es[p].hit.node.id == seeds[k].node.id;
  }

  lemma SubsetCard(a: set<Id>, b: set<Id>)
    requires a <= b
    ensures |a| <= |b|
  {
    assert b == a + (b - a);
  }

  /** With no duplicate among the ranked ids, at least as many records are emitted as were ranked. */
  lemma ExpandedAtLeastRanked(seeds: seq<Hit>, expand: Expander)
    requires ExpandedResults(seeds, expand).Success? && NoDupIds(seeds)
    ensures |seeds| <= |ExpandedResults(seeds, expand).value|
  {
    var hs := ExpandedResults(seeds, expand).value;
    ExpandedResultsFacts(seeds, expand);
    IdSetCard(seeds);
    IdSetCard(hs);
    SubsetCard(IdSet(seeds), IdSet(hs));
  }

  lemma {:induction false} AddNeighboursLength(es: seq<Entry>, cs: seq<Chunk>, o: nat)
    ensures |es| <= |AddNeighbours(es, cs, o)| <= |es| + |cs|
    decreases |cs|
  {
    if cs != [] {
      AddNeighboursLength(es, cs[..|cs| - 1], o);
    }
  }

  /** With at most three neighbours per query, at most four records are emitted per ranked record. */
  lemma {:induction false} ExpandedAtMostFourPerRanked(seeds: seq<Hit>, expand: Expander)
    requires Expansion(seeds, expand).Success?
    requires forall id | expand(id).Success? :: |expand(id).value| <= MaxNeighbours
    ensures |ExpandedResults(seeds, expand).value| <= (MaxNeighbours + 1) * |seeds|
    decreases |seeds|
  {
    if seeds != [] {
      var n := |seeds|;
      ExpansionStep(seeds, expand);
      ExpandedAtMostFourPerRanked(seeds[..n - 1], expand);
      var es := Expansion(seeds[..n - 1], expand).value;
      var seed := seeds[n - 1];
      if seed.node.id !in Seen(es) {
        AddNeighboursLength(es + [Entry(seed, n - 1, true)], expand(seed.node.id).value, n - 1);
      }
    }
  }

  /** The source's nested loop over the ranked records and their neighbours. */
  method Expand(combined: seq<Hit>, expand: Expander) returns (r: Result<seq<Hit>, Fault>)
    ensures r == ExpandedResults(combined, expand)
  {
    var expandedNodes: set<Id> := {};
    var expandedResults: seq<Hit> := [];
    ghost var es: seq<Entry> := [];
    for i := 0 to |combined|
      invariant Expansion(combined[..i], expand) == Success(es)
      invariant expandedResults == HitsOf(es) && expandedNodes == Seen(es)
    {
      var result := combined[i];
      var nodeId := result.node.id;
      assert combined[..i + 1][..i] == combined[..i];
      if nodeId !in expandedNodes {
        SeenSnoc(es, Entry(result, i, true));
        expandedNodes := expandedNodes + {nodeId};
        expandedResults := expandedResults + [result];
        es := es + [Entry(result, i, true)];
        var fetched := expand(nodeId);
        if fetched.Failure? {
          ExpansionFailureSticks(combined, i + 1, expand);
          return Failure(fetched.error);
        }
        var expandedChunks := fetched.value;
        ghost var base := es;
        for j := 0 to |expandedChunks|
          invariant es == AddNeighbours(base, expandedChunks[..j], i)
          invariant expandedResults == HitsOf(es) && expandedNodes == Seen(es)
        {
          var expandedNode := expandedChunks[j];
          assert expandedChunks[..j + 1][..j] == expandedChunks[..j];
          if expandedNode.id !in expandedNodes {
            var e := Entry(Hit(expandedNode, NeighbourScore), i, false);
            SeenSnoc(es, e);
            expandedNodes := expandedNodes + {expandedNode.id};
            expandedResults := expandedResults + [Hit(expandedNode, NeighbourScore)];
            es := es + [e];
          }
        }
        assert expandedChunks[..|expandedChunks|] == expandedChunks;
      }
    }
    assert combined[..|combined|] == combined;
    r := Success(expandedResults);
  }
}
