/**
 * Rendering of retrieved records into the context string of the prompt. The hybrid handlers
 * render each record as a citation block `\n\n[lawTitle | Section n]\n text`; the retriever
 * stage of the chain renders `[lawTitle | Section n] text`. Both join the blocks with `\n`,
 * in record order, and render an absent property as "".
 */
module Context {
  import opened Chunks
  import opened Strings
  import Wrappers

  /** One block of the hybrid handlers' context. */
  function HybridBlock(h: Hit): string
  {
    "\n\n[" + OrEmpty(h.node.lawTitle) + " | Section " + OrEmpty(h.node.sectionNumber) + "]\n "
      + OrEmpty(h.node.chunkText)
  }

  /** One block of the chain retriever's context. */
  function ChainBlock(h: Hit): string
  {
    "[" + OrEmpty(h.node.lawTitle) + " | Section " + OrEmpty(h.node.sectionNumber) + "] "
      + OrEmpty(h.node.chunkText)
  }

  function HybridBlocks(hs: seq<Hit>): (bs: seq<string>)
    ensures |bs| == |hs| && forall i | 0 <= i < |hs| :: bs[i] == HybridBlock(hs[i])
  {
    seq(|hs|, i requires 0 <= i < |hs| => HybridBlock(hs[i]))
  }

  function ChainBlocks(hs: seq<Hit>): (bs: seq<string>)
    ensures |bs| == |hs| && forall i | 0 <= i < |hs| :: bs[i] == ChainBlock(hs[i])
  {
    seq(|hs|, i requires 0 <= i < |hs| => ChainBlock(hs[i]))
  }

  /** `retrievedDocs` of the hybrid handlers. */
  function HybridContext(hs: seq<Hit>): string
  {
    Join(HybridBlocks(hs), "\n")
  }

  /** `retrievedDocs` of the chain retriever. */
  function ChainContext(hs: seq<Hit>): string
  {
    Join(ChainBlocks(hs), "\n")
  }

  /** A joined list of parts begins with its first part. */
  lemma {:induction false} JoinStartsWithFirst(parts: seq<string>, sep: string)
    requires parts != []
    ensures |parts[0]| <= |Join(parts, sep)| && Join(parts, sep)[..|parts[0]|] == parts[0]
    decreases |parts|
  {
    if |parts| > 1 {
      var init := parts[..|parts| - 1];
      JoinStartsWithFirst(init, sep);
      assert init[0] == parts[0];
      var j := Join(init, sep);
      assert Join(parts, sep) == j + sep + parts[|parts| - 1];
      assert (j + sep + parts[|parts| - 1])[..|parts[0]|] == j[..|parts[0]|];
    }
  }

  /** Joining parts that are all non-empty yields "" exactly for no parts. */
  lemma {:induction false} JoinEmpty(parts: seq<string>, sep: string)
    requires forall i | 0 <= i < |parts| :: parts[i] != ""
    ensures Join(parts, sep) == "" <==> parts == []
  {
    if parts != [] {
      JoinStartsWithFirst(parts, sep);
    }
  }

  /**
   * The hybrid context is empty exactly when there is no record; otherwise it opens with the
   * first record's citation block, and each further record adds `\n` and its own block at the end.
   */
  lemma HybridContextShape(hs: seq<Hit>, h: Hit)
    ensures HybridContext(hs) == "" <==> hs == []
    ensures hs != [] ==> |HybridBlock(hs[0])| <= |HybridContext(hs)| && HybridContext(hs)[..|HybridBlock(hs[0])|] == HybridBlock(hs[0])
    ensures HybridContext(hs + [h]) == (if hs == [] then "" else HybridContext(hs) + "\n") + HybridBlock(h)
  {
    var bs := HybridBlocks(hs);
    JoinEmpty(bs, "\n");
    if hs != [] {
      JoinStartsWithFirst(bs, "\n");
      assert HybridBlocks(hs + [h]) == bs + [HybridBlock(h)];
      JoinSnoc(bs, HybridBlock(h), "\n");
    } else {
      assert HybridBlocks(hs + [h]) == [HybridBlock(h)];
    }
  }

  /** The same shape for the chain retriever's context. */
  lemma ChainContextShape(hs: seq<Hit>, h: Hit)
    ensures ChainContext(hs) == "" <==> hs == []
    ensures hs != [] ==> |ChainBlock(hs[0])| <= |ChainContext(hs)| && ChainContext(hs)[..|ChainBlock(hs[0])|] == ChainBlock(hs[0])
    ensures ChainContext(hs + [h]) == (if hs == [] then "" else ChainContext(hs) + "\n") + ChainBlock(h)
  {
    var bs := ChainBlocks(hs);
    JoinEmpty(bs, "\n");
    if hs != [] {
      JoinStartsWithFirst(bs, "\n");
      assert ChainBlocks(hs + [h]) == bs + [ChainBlock(h)];
      JoinSnoc(bs, ChainBlock(h), "\n");
    } else {
      assert ChainBlocks(hs + [h]) == [ChainBlock(h)];
    }
  }

  /** The context of two record lists is their contexts joined by one `\n`: blocks keep record order. */
  lemma HybridContextConcat(a: seq<Hit>, b: seq<Hit>)
    requires a != [] && b != []
    ensures HybridContext(a + b) == HybridContext(a) + "\n" + HybridContext(b)
  {
    assert HybridBlocks(a + b) == HybridBlocks(a) + HybridBlocks(b);
    JoinConcat(HybridBlocks(a), HybridBlocks(b), "\n");
  }

  /** A record without title, section and text renders as a block with empty fields. */
  lemma EmptyRecordBlocks(id: Id, score: real)
    ensures var h := Hit(Chunk(id, Wrappers.None, Wrappers.None, Wrappers.None), score);
            HybridBlock(h) == "\n\n[ | Section ]\n " && ChainBlock(h) == "[ | Section ] "
  {
  }
}
