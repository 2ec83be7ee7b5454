/**
 * Ranking of the merged records: `.sort((a, b) => b.score - a.score).slice(0, 10)`.
 * `Array.prototype.sort` is stable, so records of equal score keep their merge order; the sort
 * is specified as the stable insertion sort by descending score.
 */
module Rank {
  import opened Chunks

  /** At most this many records survive the ranking. */
  const MaxCombined: nat := 10

  /** Insert `h` after every record of `sorted` scoring at least as much as `h`. */
  function InsertByScore(sorted: seq<Hit>, h: Hit): seq<Hit>
    decreases |sorted|
  {
    if sorted == [] then [h]
    else if sorted[0].score >= h.score then [sorted[0]] + InsertByScore(sorted[1..], h)
    else [h] + sorted
  }

  /** The stable sort by descending score. */
  function SortByScore(hs: seq<Hit>): seq<Hit>
    decreases |hs|
  {
    if hs == [] then [] else InsertByScore(SortByScore(hs[..|hs| - 1]), hs[|hs| - 1])
  }

  /** Scores do not increase along the sequence. */
  predicate SortedDesc(hs: seq<Hit>)
  {
    forall i, j | 0 <= i < j < |hs| :: hs[i].score >= hs[j].score
  }

  /** The records scoring exactly `v`, in their order: what a stable sort must not reorder. */
  function WithScore(hs: seq<Hit>, v: real): seq<Hit>
    decreases |hs|
  {
    if hs == [] then []
    else WithScore(hs[..|hs| - 1], v) + (if hs[|hs| - 1].score == v then [hs[|hs| - 1]] else [])
  }

  /** `combinedResults`: the ten best records of the merge, best first. */
  function Combine(merged: seq<Hit>): seq<Hit>
  {
    var sorted := SortByScore(merged);
    sorted[..if |sorted| < MaxCombined then |sorted| else MaxCombined]
  }

  lemma {:induction false} WithScoreConcat(a: seq<Hit>, b: seq<Hit>, v: real)
    ensures WithScore(a + b, v) == WithScore(a, v) + WithScore(b, v)
    decreases |b|
  {
    if b == [] {
      assert a + b == a;
    } else {
      var b0 := b[..|b| - 1];
      assert (a + b)[..|a + b| - 1] == a + b0;
      WithScoreConcat(a, b0, v);
    }
  }

  lemma WithScoreCons(h: Hit, t: seq<Hit>, v: real)
    ensures WithScore([h] + t, v) == (if h.score == v then [h] else []) + WithScore(t, v)
  {
    WithScoreConcat([h], t, v);
    assert WithScore([h], v) == WithScore([], v) + (if h.score == v then [h] else []);
  }

  lemma {:induction false} InsertByScoreMembers(sorted: seq<Hit>, h: Hit, x: Hit)
    requires x in InsertByScore(sorted, h)
    ensures x in sorted || x == h
    decreases |sorted|
  {
    if sorted != [] && sorted[0].score >= h.score {
      if x != sorted[0] {
        InsertByScoreMembers(sorted[1..], h, x);
      }
    }
  }

  lemma {:induction false} InsertByScoreSorted(sorted: seq<Hit>, h: Hit)
    requires SortedDesc(sorted)
    ensures SortedDesc(InsertByScore(sorted, h))
    decreases |sorted|
  {
    var r := InsertByScore(sorted, h);
    if sorted != [] && sorted[0].score >= h.score {
      var s0, t := sorted[0], sorted[1..];
      InsertByScoreSorted(t, h);
      var rt := InsertByScore(t, h);
      assert r == [s0] + rt;
      forall i, j | 0 <= i < j < |r| ensures r[i].score >= r[j].score {
        if i == 0 {
          assert r[j] == rt[j - 1];
          InsertByScoreMembers(t, h, r[j]);
          if r[j] in t {
            var k :| 0 <= k < |t| && t[k] == r[j];
            assert sorted[k + 1] == r[j];
          }
        } else {
          assert r[i] == rt[i - 1] && r[j] == rt[j - 1];
        }
      }
    } else if sorted != [] {
      assert r == [h] + sorted;
      forall i, j | 0 <= i < j < |r| ensures r[i].score >= r[j].score {
        if i == 0 {
          assert r[j] == sorted[j - 1];
        } else {
          assert r[i] == sorted[i - 1] && r[j] == sorted[j - 1];
        }
      }
    }
  }

  lemma {:induction false} InsertByScorePermutes(sorted: seq<Hit>, h: Hit)
    ensures multiset(InsertByScore(sorted, h)) == multiset(sorted) + multiset{h}
    decreases |sorted|
  {
    if sorted != [] && sorted[0].score >= h.score {
      InsertByScorePermutes(sorted[1..], h);
      assert sorted == [sorted[0]] + sorted[1..];
    }
  }

  lemma InsertByScoreIds(sorted: seq<Hit>, h: Hit)
    ensures IdSet(InsertByScore(sorted, h)) == IdSet(sorted) + {h.node.id}
  {
    var r := InsertByScore(sorted, h);
    InsertByScorePermutes(sorted, h);
    assert forall x :: x in r <==> x in multiset(r);
    assert forall x :: x in sorted <==> x in multiset(sorted);
    assert forall x | x in r :: x in sorted || x == h;
    assert forall x | x in sorted :: x in r;
    assert h in r;
  }

  lemma {:induction false} InsertByScoreStable(sorted: seq<Hit>, h: Hit, v: real)
    requires SortedDesc(sorted)
    ensures WithScore(InsertByScore(sorted, h), v) == WithScore(sorted, v) + (if h.score == v then [h] else [])
    decreases |sorted|
  {
    var r := InsertByScore(sorted, h);
    if sorted == [] {
      WithScoreCons(h, [], v);
    } else if sorted[0].score >= h.score {
      var s0, t := sorted[0], sorted[1..];
      assert sorted == [s0] + t;
      InsertByScoreStable(t, h, v);
      assert r == [s0] + InsertByScore(t, h);
      WithScoreCons(s0, InsertByScore(t, h), v);
      WithScoreCons(s0, t, v);
    } else {
      assert r == [h] + sorted;
      WithScoreCons(h, sorted, v);
      if h.score == v {
        assert forall i | 0 <= i < |sorted| :: sorted[i].score <= sorted[0].score;
        NoneWithScore(sorted, v);
      }
    }
  }

  /** A sequence scoring strictly below `v` everywhere has no record scoring `v`. */
  lemma {:induction false} NoneWithScore(hs: seq<Hit>, v: real)
    requires forall i | 0 <= i < |hs| :: hs[i].score < v
    ensures WithScore(hs, v) == []
    decreases |hs|
  {
    if hs != [] {
      NoneWithScore(hs[..|hs| - 1], v);
    }
  }

  /**
   * The sort orders by non-increasing score, is a permutation, keeps the set of ids, and is
   * stable: the records of any one score appear in their input order.
   */
  lemma {:induction false} SortByScoreFacts(hs: seq<Hit>)
    ensures SortedDesc(SortByScore(hs))
    ensures multiset(SortByScore(hs)) == multiset(hs)
    ensures IdSet(SortByScore(hs)) == IdSet(hs)
    ensures forall v :: WithScore(SortByScore(hs), v) == WithScore(hs, v)
    decreases |hs|
  {
    if hs != [] {
      var init, h := hs[..|hs| - 1], hs[|hs| - 1];
      assert hs == init + [h];
      SortByScoreFacts(init);
      var sorted := SortByScore(init);
      InsertByScoreSorted(sorted, h);
      InsertByScorePermutes(sorted, h);
      InsertByScoreIds(sorted, h);
      forall v ensures WithScore(SortByScore(hs), v) == WithScore(hs, v) {
        InsertByScoreStable(sorted, h, v);
        assert hs[..|hs| - 1] == init;
      }
      IdSetSnoc(init, h);
    }
  }

  /** Sorting a sequence without duplicate ids creates none. */
  lemma {:induction false} SortByScoreNoDup(hs: seq<Hit>)
    requires NoDupIds(hs)
    ensures NoDupIds(SortByScore(hs))
    decreases |hs|
  {
    if hs != [] {
      var init, h := hs[..|hs| - 1], hs[|hs| - 1];
      SortByScoreNoDup(init);
      SortByScoreFacts(init);
      assert h.node.id !in IdSet(init) by {
        forall x | x in init ensures x.node.id != h.node.id {
          var k :| 0 <= k < |init| && init[k] == x;
          assert hs[k] == x;
        }
      }
      InsertByScoreNoDup(SortByScore(init), h);
    }
  }

  lemma {:induction false} InsertByScoreNoDup(sorted: seq<Hit>, h: Hit)
    requires NoDupIds(sorted) && h.node.id !in IdSet(sorted)
    ensures NoDupIds(InsertByScore(sorted, h))
    decreases |sorted|
  {
    if sorted != [] && sorted[0].score >= h.score {
      var s0, t := sorted[0], sorted[1..];
      assert forall x | x in t :: x in sorted;
      InsertByScoreNoDup(t, h);
      var r := InsertByScore(sorted, h);
      var rt := InsertByScore(t, h);
      assert r == [s0] + rt;
      assert forall x | x in rt :: x in t || x == h by {
        forall x | x in rt ensures x in t || x == h {
          InsertByScoreMembers(t, h, x);
        }
      }
      forall j | 0 < j < |r| ensures r[j].node.id != s0.node.id {
        assert r[j] in rt;
        if r[j] in t {
          var k :| 0 <= k < |t| && t[k] == r[j];
          assert sorted[k + 1] == r[j];
        }
      }
    } else if sorted != [] {
      var r := InsertByScore(sorted, h);
      assert r == [h] + sorted;
      forall i, j | 0 <= i < j < |r| ensures r[i].node.id != r[j].node.id {
        if i == 0 {
          assert r[j] in sorted;
        } else {
          assert r[i] == sorted[i - 1] && r[j] == sorted[j - 1];
        }
      }
    }
  }

  /** A sorted sequence lists the records of its highest score first. */
  lemma WithScoreOfSortedHead(a: seq<Hit>)
    requires SortedDesc(a) && a != []
    ensures WithScore(a, a[0].score) == [a[0]] + WithScore(a[1..], a[0].score)
  {
    assert a == [a[0]] + a[1..];
    WithScoreCons(a[0], a[1..], a[0].score);
  }

  lemma {:induction false} InWithScore(a: seq<Hit>, v: real, x: Hit)
    ensures x in WithScore(a, v) <==> x in a && x.score == v
    decreases |a|
  {
    if a != [] {
      var init := a[..|a| - 1];
      InWithScore(init, v, x);
      assert a == init + [a[|a| - 1]];
    }
  }

  /** Two sorted sequences with the same records of every score begin with the same record. */
  lemma SortedStableSameHead(a: seq<Hit>, b: seq<Hit>)
    requires SortedDesc(a) && SortedDesc(b) && a != [] && b != []
    requires forall v :: WithScore(a, v) == WithScore(b, v)
    ensures a[0] == b[0]
  {
    var m := a[0].score;
    InWithScore(a, m, a[0]);
    InWithScore(b, m, a[0]);
    InWithScore(b, b[0].score, b[0]);
    InWithScore(a, b[0].score, b[0]);
    var p :| 0 <= p < |b| && b[p] == a[0];
    var q :| 0 <= q < |a| && a[q] == b[0];
    assert b[0].score == m;
    WithScoreOfSortedHead(a);
    WithScoreOfSortedHead(b);
    assert WithScore(a, m) == WithScore(b, m);
    assert WithScore(a, m)[0] == a[0] && WithScore(b, m)[0] == b[0];
  }

  /**
   * Sortedness and stability determine the result: two sorted sequences with the same records
   * of every score, in the same order, are equal. So the ranking is the only stable descending
   * sort of the merge.
   */
  lemma {:induction false} SortedStableUnique(a: seq<Hit>, b: seq<Hit>)
    requires SortedDesc(a) && SortedDesc(b)
    requires forall v :: WithScore(a, v) == WithScore(b, v)
    ensures a == b
    decreases |a|
  {
    if a != [] && b != [] {
      SortedStableSameHead(a, b);
      forall v ensures WithScore(a[1..], v) == WithScore(b[1..], v) {
        assert a == [a[0]] + a[1..] && b == [b[0]] + b[1..];
        WithScoreCons(a[0], a[1..], v);
        WithScoreCons(b[0], b[1..], v);
        var pre := if a[0].score == v then [a[0]] else [];
        var wa, wb := WithScore(a[1..], v), WithScore(b[1..], v);
        assert pre + wa == pre + wb;
        assert (pre + wa)[|pre|..] == wa && (pre + wb)[|pre|..] == wb;
      }
      assert SortedDesc(a[1..]) && SortedDesc(b[1..]);
      SortedStableUnique(a[1..], b[1..]);
      assert a == [a[0]] + a[1..] && b == [b[0]] + b[1..];
    } else if a != [] {
      InWithScore(a, a[0].score, a[0]);
    } else if b != [] {
      InWithScore(b, b[0].score, b[0]);
    }
  }

  /** The ranking is the prefix of at most ten records of the stable sort. */
  lemma CombineLength(merged: seq<Hit>)
    ensures |Combine(merged)| == if |merged| < MaxCombined then |merged| else MaxCombined
    ensures Combine(merged) == SortByScore(merged)[..|Combine(merged)|]
  {
    SortByScoreFacts(merged);
    assert |SortByScore(merged)| == |multiset(SortByScore(merged))| == |multiset(merged)| == |merged|;
  }

  /**
   * `combinedResults` holds min(10, n) records of the merge, best first, with no duplicate id
   * when the merge has none, and no record left out scores higher than one kept.
   */
  lemma CombineFacts(merged: seq<Hit>)
    ensures |Combine(merged)| == if |merged| < MaxCombined then |merged| else MaxCombined
    ensures SortedDesc(Combine(merged))
    ensures multiset(Combine(merged)) <= multiset(merged)
    ensures NoDupIds(merged) ==> NoDupIds(Combine(merged))
    ensures forall h, x | h in multiset(merged) - multiset(Combine(merged)) && x in Combine(merged) :: h.score <= x.score
  {
    var sorted := SortByScore(merged);
    var r := Combine(merged);
    CombineLength(merged);
    SortByScoreFacts(merged);
    var n := |r|;
    assert multiset(r) <= multiset(sorted) by {
      assert sorted == r + sorted[n..];
    }
    if NoDupIds(merged) {
      SortByScoreNoDup(merged);
    }
    CombineLeftOut(sorted, n);
  }

  /** In a sorted sequence nothing after position `n` scores higher than anything before it. */
  lemma CombineLeftOut(sorted: seq<Hit>, n: nat)
    requires SortedDesc(sorted) && n <= |sorted|
    ensures forall h, x | h in multiset(sorted) - multiset(sorted[..n]) && x in sorted[..n] :: h.score <= x.score
  {
    var r := sorted[..n];
    assert sorted == r + sorted[n..];
    assert multiset(sorted) == multiset(r) + multiset(sorted[n..]);
    forall h, x | h in multiset(sorted) - multiset(r) && x in r ensures h.score <= x.score {
      assert h in multiset(sorted[n..]);
      assert h in sorted[n..];
      var j :| 0 <= j < |sorted[n..]| && sorted[n..][j] == h;
      var i :| 0 <= i < n && r[i] == x;
      assert sorted[i] == x && sorted[n + j] == h;
    }
  }
}
