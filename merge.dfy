/**
 * Merge and deduplication of the vector and keyword results: a `Map` from node id to record,
 * filled in one pass over all records; a record replaces the stored one only when its score
 * is strictly higher. `Array.from(map.values())` lists the records in the order in which
 * their ids were first inserted.
 */
module Merge {
  import opened Chunks

  /** Position of the first record with the given id, or `|hs|` when there is none. */
  function IndexOfId(hs: seq<Hit>, id: Id): (i: nat)
    ensures i <= |hs|
    ensures i < |hs| ==> hs[i].node.id == id
    ensures forall j | 0 <= j < i :: hs[j].node.id != id
    decreases |hs|
  {
    if hs == [] then 0
    else if hs[0].node.id == id then 0
    else 1 + IndexOfId(hs[1..], id)
  }

  /** One step of the merge: a new id is appended; a known id is replaced only by a strictly higher score. */
  function Insert(acc: seq<Hit>, h: Hit): seq<Hit>
  {
    var i := IndexOfId(acc, h.node.id);
    if i == |acc| then acc + [h]
    else if acc[i].score < h.score then acc[i := h]
    else acc
  }

  /** The map's values after all records have been processed, in insertion order of their ids. */
  function Merged(hs: seq<Hit>): seq<Hit>
    decreases |hs|
  {
    if hs == [] then [] else Insert(Merged(hs[..|hs| - 1]), hs[|hs| - 1])
  }

  /** The ids in order of first occurrence (an independent description of the map's key order). */
  function Distinct(xs: seq<Id>): (d: seq<Id>)
    decreases |xs|
  {
    if xs == [] then []
    else
      var d0 := Distinct(xs[..|xs| - 1]);
      if xs[|xs| - 1] in d0 then d0 else d0 + [xs[|xs| - 1]]
  }

  /** Record `k` is the first one of its id holding the highest score of that id. */
  predicate IsFirstBest(hs: seq<Hit>, k: int)
    requires 0 <= k < |hs|
  {
    forall j | 0 <= j < |hs| && hs[j].node.id == hs[k].node.id ::
      hs[j].score <= hs[k].score && (j < k ==> hs[j].score < hs[k].score)
  }

  lemma InsertIds(acc: seq<Hit>, h: Hit)
    ensures IdsOf(Insert(acc, h)) == if h.node.id in IdsOf(acc) then IdsOf(acc) else IdsOf(acc) + [h.node.id]
  {
    var i := IndexOfId(acc, h.node.id);
    if i == |acc| {
      assert h.node.id !in IdsOf(acc);
      assert IdsOf(acc + [h]) == IdsOf(acc) + [h.node.id];
    } else {
      assert IdsOf(acc)[i] == h.node.id;
    }
  }

  /** The merge lists every id once, in order of first occurrence. */
  lemma {:induction false} MergedIds(hs: seq<Hit>)
    ensures IdsOf(Merged(hs)) == Distinct(IdsOf(hs))
    decreases |hs|
  {
    if hs != [] {
      var init := hs[..|hs| - 1];
      MergedIds(init);
      InsertIds(Merged(init), hs[|hs| - 1]);
      assert IdsOf(hs)[..|hs| - 1] == IdsOf(init);
    }
  }

  lemma {:induction false} DistinctNoDup(xs: seq<Id>)
    ensures forall i, j | 0 <= i < j < |Distinct(xs)| :: Distinct(xs)[i] != Distinct(xs)[j]
    ensures forall x :: x in Distinct(xs) <==> x in xs
    decreases |xs|
  {
    if xs != [] {
      var init := xs[..|xs| - 1];
      DistinctNoDup(init);
      assert xs == init + [xs[|xs| - 1]];
    }
  }

  /** The merge keeps no id twice, drops no id and invents none. */
  lemma MergedNoDup(hs: seq<Hit>)
    ensures NoDupIds(Merged(hs))
    ensures IdSet(Merged(hs)) == IdSet(hs)
    ensures |Merged(hs)| == |IdSet(hs)|
  {
    var m := Merged(hs);
    MergedIds(hs);
    DistinctNoDup(IdsOf(hs));
    assert forall i | 0 <= i < |m| :: IdsOf(m)[i] == m[i].node.id;
    forall x ensures x in IdSet(m) <==> x in IdSet(hs) {
      if x in IdSet(m) {
        var h :| h in m && h.node.id == x;
        var i :| 0 <= i < |m| && m[i] == h;
        assert IdsOf(m)[i] == x;
        assert x in IdsOf(m);
        assert x in IdsOf(hs);
        var j :| 0 <= j < |hs| && IdsOf(hs)[j] == x;
        assert hs[j] in hs;
      }
      if x in IdSet(hs) {
        var h :| h in hs && h.node.id == x;
        var j :| 0 <= j < |hs| && hs[j] == h;
        assert IdsOf(hs)[j] == x;
        assert x in IdsOf(hs);
        assert x in IdsOf(m);
        var i :| 0 <= i < |m| && IdsOf(m)[i] == x;
        assert m[i] in m;
      }
    }
    IdSetCard(m);
  }

  /** Every record of `m` is an input record of `hs` that is the first best of its id. */
  ghost predicate KeepsFirstBest(hs: seq<Hit>, m: seq<Hit>)
  {
    forall r | r in m :: exists k | 0 <= k < |hs| :: hs[k] == r && IsFirstBest(hs, k)
  }

  /** A record that enters the map (new id, or strictly higher score) is the first best so far. */
  lemma EnteringRecordIsFirstBest(init: seq<Hit>, h: Hit, acc: seq<Hit>)
    requires KeepsFirstBest(init, acc) && IdSet(acc) == IdSet(init)
    requires var i := IndexOfId(acc, h.node.id); i == |acc| || acc[i].score < h.score
    ensures IsFirstBest(init + [h], |init|)
  {
    var hs, n := init + [h], |init|;
    var i := IndexOfId(acc, h.node.id);
    assert forall j | 0 <= j < n :: hs[j] == init[j];
    if i == |acc| {
      forall j | 0 <= j < n ensures init[j].node.id != h.node.id {
        assert init[j] in init;
        assert init[j].node.id in IdSet(acc);
        var x :| x in acc && x.node.id == init[j].node.id;
        var q :| 0 <= q < |acc| && acc[q] == x;
      }
    } else {
      assert acc[i] in acc;
      var k :| 0 <= k < n && init[k] == acc[i] && IsFirstBest(init, k);
    }
  }

  /** A stored record stays the first best unless a strictly higher score of its id arrives. */
  lemma StoredRecordStaysFirstBest(init: seq<Hit>, h: Hit, acc: seq<Hit>, r: Hit)
    requires KeepsFirstBest(init, acc) && r in acc
    requires r.node.id == h.node.id ==> h.score <= r.score
    ensures exists k | 0 <= k < |init + [h]| :: (init + [h])[k] == r && IsFirstBest(init + [h], k)
  {
    var hs := init + [h];
    var k :| 0 <= k < |init| && init[k] == r && IsFirstBest(init, k);
    assert forall j | 0 <= j < |init| :: hs[j] == init[j];
    assert hs[k] == r && IsFirstBest(hs, k);
  }

  lemma InsertKeepsFirstBest(init: seq<Hit>, h: Hit, acc: seq<Hit>)
    requires KeepsFirstBest(init, acc) && IdSet(acc) == IdSet(init) && NoDupIds(acc)
    ensures KeepsFirstBest(init + [h], Insert(acc, h))
  {
    var hs := init + [h];
    var i := IndexOfId(acc, h.node.id);
    var m := Insert(acc, h);
    if i == |acc| || acc[i].score < h.score {
      EnteringRecordIsFirstBest(init, h, acc);
      assert hs[|init|] == h;
    }
    forall r | r in m ensures exists k | 0 <= k < |hs| :: hs[k] == r && IsFirstBest(hs, k) {
      if i == |acc| {
        if r != h {
          assert r in acc;
          StoredRecordStaysFirstBest(init, h, acc, r);
        }
      } else if acc[i].score < h.score {
        if r != h {
          var q :| 0 <= q < |m| && m[q] == r;
          assert q != i && acc[q] == r;
          assert acc[q] in acc;
          StoredRecordStaysFirstBest(init, h, acc, r);
        }
      } else {
        var q :| 0 <= q < |acc| && acc[q] == r;
        StoredRecordStaysFirstBest(init, h, acc, r);
      }
    }
  }

  /**
   * Every record the merge keeps is an input record, and it is the first record of its id
   * holding the highest score of that id: a later record with an equal score does not replace it.
   */
  lemma {:induction false} MergedKeepsFirstBest(hs: seq<Hit>)
    ensures forall r | r in Merged(hs) :: exists k | 0 <= k < |hs| :: hs[k] == r && IsFirstBest(hs, k)
    decreases |hs|
  {
    if hs != [] {
      var n := |hs| - 1;
      MergedKeepsFirstBest(hs[..n]);
      MergedNoDup(hs[..n]);
      InsertKeepsFirstBest(hs[..n], hs[n], Merged(hs[..n]));
      assert hs[..n] + [hs[n]] == hs;
    }
  }

  /**
   * `uniqueNodes` (with `order`, its keys in insertion order) holds exactly the records of `acc`:
   * the state of the source's map after the records that produced `acc`.
   */
  ghost predicate Mirrors(unique: map<Id, Hit>, order: seq<Id>, acc: seq<Hit>)
  {
    && |order| == |acc|
    && (forall k | 0 <= k < |acc| :: order[k] == acc[k].node.id && order[k] in unique && unique[order[k]] == acc[k])
    && (forall id | id in unique :: id in order)
  }

  lemma MirrorsInsert(unique: map<Id, Hit>, order: seq<Id>, acc: seq<Hit>, h: Hit)
    requires Mirrors(unique, order, acc) && NoDupIds(acc)
    ensures var id := h.node.id;
            var replace := id !in unique || unique[id].score < h.score;
            var unique' := if replace then unique[id := h] else unique;
            var order' := if id !in unique then order + [id] else order;
            Mirrors(unique', order', Insert(acc, h))
  {
    var id := h.node.id;
    var i := IndexOfId(acc, id);
    if id in unique {
      var k :| 0 <= k < |order| && order[k] == id;
      assert i == k;
    } else {
      assert i == |acc|;
    }
  }

  /** The source's loop: `uniqueNodes.set(nodeId, …)` for a new id or a strictly higher score. */
  method MergeUnique(all: seq<Hit>) returns (values: seq<Hit>)
    ensures values == Merged(all)
  {
    var unique: map<Id, Hit> := map[];
    var keys: seq<Id> := [];
    for i := 0 to |all|
      invariant Mirrors(unique, keys, Merged(all[..i]))
    {
      var record := all[i];
      var nodeId := record.node.id;
      assert all[..i + 1][..i] == all[..i];
      MergedNoDup(all[..i]);
      MirrorsInsert(unique, keys, Merged(all[..i]), record);
      if nodeId !in unique || unique[nodeId].score < record.score {
        if nodeId !in unique {
          keys := keys + [nodeId];
        }
        unique := unique[nodeId := record];
      }
    }
    assert all[..|all|] == all;
    values := seq(|keys|, k requires 0 <= k < |keys| && keys[k] in unique => unique[keys[k]]);
  }
}
