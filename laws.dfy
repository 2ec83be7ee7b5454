/**
 * The `/laws` listing: the database returns one page of the matching laws (newest first,
 * `SKIP (page - 1) * limit LIMIT limit`), and the handler drops the repealed laws of that page.
 */
module Laws {
  import opened Wrappers
  import opened Chunks

  /** One row of the listing; each property may be absent (`null`). */
  datatype Law = Law(lawId: int, title: Option<string>, hasChapters: Option<bool>, isRepealed: Option<bool>)

  const DefaultPage: int := 1
  const DefaultLimit: int := 50

  /** `!law.isRepealed`: a law is listed unless it is marked repealed. */
  predicate InForce(law: Law)
  {
    law.isRepealed != Some(true)
  }

  /** `filter((law) => !law.isRepealed)`. */
  function NotRepealed(laws: seq<Law>): (r: seq<Law>)
    ensures |r| <= |laws|
    ensures forall l :: l in r <==> l in laws && InForce(l)
    decreases |laws|
  {
    if laws == [] then []
    else (if InForce(laws[0]) then [laws[0]] else []) + NotRepealed(laws[1..])
  }

  /** The filter distributes over concatenation, so it keeps the order of the rows. */
  lemma {:induction false} NotRepealedConcat(a: seq<Law>, b: seq<Law>)
    ensures NotRepealed(a + b) == NotRepealed(a) + NotRepealed(b)
    decreases |a|
  {
    if a != [] {
      assert (a + b)[0] == a[0] && (a + b)[1..] == a[1..] + b;
      NotRepealedConcat(a[1..], b);
    } else {
      assert a + b == b;
    }
  }

  /** Filtering twice is filtering once. */
  lemma {:induction false} NotRepealedIdempotent(laws: seq<Law>)
    ensures NotRepealed(NotRepealed(laws)) == NotRepealed(laws)
    decreases |laws|
  {
    if laws != [] {
      NotRepealedIdempotent(laws[1..]);
      var head := if InForce(laws[0]) then [laws[0]] else [];
      NotRepealedConcat(head, NotRepealed(laws[1..]));
      assert NotRepealed(head) == head by {
        if InForce(laws[0]) { assert head[1..] == []; }
      }
    }
  }

  /** `offset = (page - 1) * limit`. */
  function Offset(page: int, limit: int): int
  {
    (page - 1) * limit
  }

  /** `SKIP skip LIMIT limit` over the ordered rows; the database rejects a negative value. */
  function Window(rows: seq<Law>, skip: int, limit: int): (r: Result<seq<Law>, Fault>)
    ensures r.Success? <==> skip >= 0 && limit >= 0
    ensures r.Success? ==> |r.value| <= limit
  {
    if skip < 0 || limit < 0 then Failure(Fault("negative SKIP or LIMIT"))
    else
      var lo := Min(skip, |rows|);
      Success(rows[lo..Min(skip + limit, |rows|)])
  }

  /** The `/laws` handler on the ordered matching rows, with the defaults for absent parameters. */
  function LawsPage(rows: seq<Law>, page: Option<int>, limit: Option<int>): (r: Result<seq<Law>, Fault>)
  {
    var p := if page.Some? then page.value else DefaultPage;
    var l := if limit.Some? then limit.value else DefaultLimit;
    match Window(rows, Offset(p, l), l)
    case Failure(f) => Failure(f)
    case Success(window) => Success(NotRepealed(window))
  }

  /** The offset is non-negative exactly from the first page on, or always for a zero limit. */
  lemma OffsetSign(page: int, limit: int)
    requires limit >= 0
    ensures Offset(page, limit) >= 0 <==> page >= 1 || limit == 0
  {
    if limit > 0 && page < 1 {
      assert (page - 1) * limit <= -1 * limit;
    }
    if page >= 1 {
      assert (page - 1) * limit >= 0;
    }
  }

  /**
   * A listed page holds at most `limit` laws, none repealed, each one of the rows; it fails
   * exactly for a negative limit, or for a page before the first one with a positive limit.
   * Without parameters it lists the laws in force among the first fifty rows.
   */
  lemma LawsPageFacts(rows: seq<Law>, page: int, limit: int)
    ensures var r := LawsPage(rows, Some(page), Some(limit));
            && (r.Success? <==> limit >= 0 && (page >= 1 || limit == 0))
            && (r.Success? ==> |r.value| <= limit && forall l | l in r.value :: InForce(l) && l in rows)
    ensures LawsPage(rows, None, None) == Success(NotRepealed(rows[..Min(DefaultLimit, |rows|)]))
  {
    if limit >= 0 {
      OffsetSign(page, limit);
    }
    var w := Window(rows, Offset(page, limit), limit);
    if w.Success? {
      forall l | l in NotRepealed(w.value) ensures l in rows {
        assert l in w.value;
      }
    }
    assert Offset(DefaultPage, DefaultLimit) == 0;
  }

  /** The laws listed on pages `1..n`, in page order. */
  function ListedUpTo(rows: seq<Law>, n: nat, limit: nat): seq<Law>
  {
    if n == 0 then []
    else
      OffsetSign(n, limit);
      ListedUpTo(rows, n - 1, limit) + LawsPage(rows, Some(n), Some(limit)).value
  }

  /**
   * Consecutive pages tile the rows: the laws listed on pages `1..n` are exactly the laws in
   * force among the first `n * limit` rows, in order, with no row listed twice or skipped.
   */
  lemma {:induction false} PagesTile(rows: seq<Law>, n: nat, limit: nat)
    ensures ListedUpTo(rows, n, limit) == NotRepealed(rows[..Min(n * limit, |rows|)])
  {
    if n > 0 {
      PagesTile(rows, n - 1, limit);
      var skip := (n - 1) * limit;
      assert skip >= 0;
      assert n * limit == skip + limit;
      var lo, hi := Min(skip, |rows|), Min(skip + limit, |rows|);
      assert Window(rows, Offset(n, limit), limit) == Success(rows[lo..hi]);
      assert rows[..lo] + rows[lo..hi] == rows[..hi];
      NotRepealedConcat(rows[..lo], rows[lo..hi]);
    }
  }
}
