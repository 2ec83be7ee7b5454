/**
 * Grouping of a law's sections for display: the `/laws/sections/:lawId` handler groups the
 * sections by chapter, the `/constitution/sections` handler by part and then by chapter. Both
 * fold over the sections in database order, creating a group the first time its key appears
 * (titled after that first section) and appending each section to its group.
 */
module Sections {
  import opened Wrappers

  /** A `Section` row as the database returns it; `nodeId` is the 64-bit `id(s)`. */
  datatype SectionRow = SectionRow(
    sectionNumber: Option<string>, sectionKey: Option<string>, headline: Option<string>,
    chapterNumber: Option<string>, chapterTitle: Option<string>,
    partNumber: Option<string>, partTitle: Option<string>, nodeId: int)

  /** A section as the handler builds it; `id` is the low 32 bits of the node id. */
  datatype Section = Section(
    sectionNumber: Option<string>, sectionKey: Option<string>, headline: Option<string>,
    chapterNumber: Option<string>, chapterTitle: Option<string>,
    partNumber: Option<string>, partTitle: Option<string>, id: int)

  datatype ChapterGroup = ChapterGroup(chapterTitle: string, sections: seq<Section>)
  datatype PartGroup = PartGroup(partTitle: string, chapters: map<string, ChapterGroup>)

  const TwoTo32: int := 0x1_0000_0000
  const TwoTo31: int := 0x8000_0000

  /** `Integer.low`: the low 32 bits of a 64-bit integer, read as a signed 32-bit value. */
  function Low(n: int): (r: int)
    ensures -TwoTo31 <= r < TwoTo31
    ensures (r - n) % TwoTo32 == 0
    ensures 0 <= n < TwoTo31 ==> r == n
  {
    var m := n % TwoTo32;
    if m >= TwoTo31 then m - TwoTo32 else m
  }

  /** The row-to-section `map` of both handlers. */
  function ToSection(row: SectionRow): Section
  {
    Section(row.sectionNumber, row.sectionKey, row.headline, row.chapterNumber, row.chapterTitle,
            row.partNumber, row.partTitle, Low(row.nodeId))
  }

  function ToSections(rows: seq<SectionRow>): (ss: seq<Section>)
    ensures |ss| == |rows| && forall i | 0 <= i < |rows| :: ss[i] == ToSection(rows[i])
  {
    seq(|rows|, i requires 0 <= i < |rows| => ToSection(rows[i]))
  }

  /** `value || fallback` for a string property: absent or empty falls back. */
  function OrDefault(p: Option<string>, fallback: string): string
  {
    if p.Some? && p.value != "" then p.value else fallback
  }

  function ChapterKey(s: Section): string
  {
    OrDefault(s.chapterNumber, "No Chapter")
  }

  function ChapterTitle(s: Section): string
  {
    OrDefault(s.chapterTitle, "No Chapter Title")
  }

  function PartKey(s: Section): string
  {
    OrDefault(s.partNumber, "No Part")
  }

  function PartTitle(s: Section): string
  {
    OrDefault(s.partTitle, "No Part Title")
  }

  /** One step of the chapter reducer. */
  function AddToChapter(acc: map<string, ChapterGroup>, s: Section): map<string, ChapterGroup>
  {
    var k := ChapterKey(s);
    var g := if k in acc then acc[k] else ChapterGroup(ChapterTitle(s), []);
    acc[k := ChapterGroup(g.chapterTitle, g.sections + [s])]
  }

  /** `sections.reduce(…, {})` grouping by chapter. */
  function GroupByChapter(ss: seq<Section>): map<string, ChapterGroup>
    decreases |ss|
  {
    if ss == [] then map[] else AddToChapter(GroupByChapter(ss[..|ss| - 1]), ss[|ss| - 1])
  }

  /** One step of the part-then-chapter reducer. */
  function AddToPart(acc: map<string, PartGroup>, s: Section): map<string, PartGroup>
  {
    var p := PartKey(s);
    var g := if p in acc then acc[p] else PartGroup(PartTitle(s), map[]);
    acc[p := PartGroup(g.partTitle, AddToChapter(g.chapters, s))]
  }

  /** `sections.reduce(…, {})` grouping by part, then by chapter. */
  function GroupByPart(ss: seq<Section>): map<string, PartGroup>
    decreases |ss|
  {
    if ss == [] then map[] else AddToPart(GroupByPart(ss[..|ss| - 1]), ss[|ss| - 1])
  }

  /** The sections whose key is `k`, in their order: a reference description of one group. */
  function WithKey(ss: seq<Section>, key: Section -> string, k: string): seq<Section>
    decreases |ss|
  {
    if ss == [] then []
    else WithKey(ss[..|ss| - 1], key, k) + (if key(ss[|ss| - 1]) == k then [ss[|ss| - 1]] else [])
  }

  lemma {:induction false} InWithKey(ss: seq<Section>, key: Section -> string, k: string, x: Section)
    ensures x in WithKey(ss, key, k) <==> x in ss && key(x) == k
    decreases |ss|
  {
    if ss != [] {
      InWithKey(ss[..|ss| - 1], key, k, x);
      assert ss == ss[..|ss| - 1] + [ss[|ss| - 1]];
    }
  }

  lemma WithKeySnoc(ss: seq<Section>, s: Section, key: Section -> string, k: string)
    ensures WithKey(ss + [s], key, k) == WithKey(ss, key, k) + (if key(s) == k then [s] else [])
  {
    assert (ss + [s])[..|ss|] == ss;
  }

  /**
   * The chapter grouping has a group exactly for each chapter key that occurs; a group holds
   * exactly the sections of its chapter, in their order, and is titled after the first of them.
   */
  lemma {:induction false} GroupByChapterContents(ss: seq<Section>)
    ensures forall k :: k in GroupByChapter(ss) <==> WithKey(ss, ChapterKey, k) != []
    ensures forall k | k in GroupByChapter(ss) ::
              var w := WithKey(ss, ChapterKey, k);
              w != [] && GroupByChapter(ss)[k] == ChapterGroup(ChapterTitle(w[0]), w)
    decreases |ss|
  {
    if ss != [] {
      var init, s := ss[..|ss| - 1], ss[|ss| - 1];
      assert ss == init + [s];
      GroupByChapterContents(init);
      forall k ensures WithKey(ss, ChapterKey, k) == WithKey(init, ChapterKey, k) + (if ChapterKey(s) == k then [s] else []) {
        WithKeySnoc(init, s, ChapterKey, k);
      }
    }
  }

  /** Every section lands in the group of its own chapter key. */
  lemma SectionInItsChapter(ss: seq<Section>, i: nat)
    requires i < |ss|
    ensures ChapterKey(ss[i]) in GroupByChapter(ss) && ss[i] in GroupByChapter(ss)[ChapterKey(ss[i])].sections
  {
    GroupByChapterContents(ss);
    InWithKey(ss, ChapterKey, ChapterKey(ss[i]), ss[i]);
  }

  /**
   * The part grouping has a group exactly for each part key that occurs, titled after its first
   * section, and a part's chapters are the chapter grouping of exactly that part's sections.
   */
  lemma {:induction false} GroupByPartContents(ss: seq<Section>)
    ensures forall p :: p in GroupByPart(ss) <==> WithKey(ss, PartKey, p) != []
    ensures forall p | p in GroupByPart(ss) ::
              var w := WithKey(ss, PartKey, p);
              w != [] && GroupByPart(ss)[p] == PartGroup(PartTitle(w[0]), GroupByChapter(w))
    decreases |ss|
  {
    if ss != [] {
      var init, s := ss[..|ss| - 1], ss[|ss| - 1];
      assert ss == init + [s];
      GroupByPartContents(init);
      var g0, g := GroupByPart(init), GroupByPart(ss);
      assert g == AddToPart(g0, s);
      var p0 := PartKey(s);
      forall p
        ensures p in g <==> WithKey(ss, PartKey, p) != []
        ensures p in g ==> var w := WithKey(ss, PartKey, p); w != [] && g[p] == PartGroup(PartTitle(w[0]), GroupByChapter(w))
      {
        WithKeySnoc(init, s, PartKey, p);
        var w0 := WithKey(init, PartKey, p);
        if p == p0 {
          AddToPartAtKey(g0, w0, s);
        } else {
          assert WithKey(ss, PartKey, p) == w0 + [] == w0;
        }
      }
    }
  }

  /** The step of the part grouping at the new section's own part key. */
  lemma AddToPartAtKey(g0: map<string, PartGroup>, w0: seq<Section>, s: Section)
    requires PartKey(s) in g0 <==> w0 != []
    requires PartKey(s) in g0 ==> g0[PartKey(s)] == PartGroup(PartTitle(w0[0]), GroupByChapter(w0))
    ensures var w := w0 + [s]; AddToPart(g0, s)[PartKey(s)] == PartGroup(PartTitle(w[0]), GroupByChapter(w))
  {
    assert (w0 + [s])[..|w0|] == w0;
    assert GroupByChapter(w0 + [s]) == AddToChapter(GroupByChapter(w0), s);
    if w0 == [] {
      assert GroupByChapter(w0) == map[];
      assert (w0 + [s])[0] == s;
    } else {
      assert (w0 + [s])[0] == w0[0];
    }
  }

  /** The `/laws/sections/:lawId` reducer: an accumulator of groups updated section by section. */
  method GroupSectionsByChapter(rows: seq<SectionRow>) returns (groupedSections: map<string, ChapterGroup>)
    ensures groupedSections == GroupByChapter(ToSections(rows))
  {
    var sections := ToSections(rows);
    groupedSections := map[];
    for i := 0 to |sections|
      invariant groupedSections == GroupByChapter(sections[..i])
    {
      var section := sections[i];
      var chapterKey := ChapterKey(section);
      if chapterKey !in groupedSections {
        groupedSections := groupedSections[chapterKey := ChapterGroup(ChapterTitle(section), [])];
      }
      var group := groupedSections[chapterKey];
      groupedSections := groupedSections[chapterKey := ChapterGroup(group.chapterTitle, group.sections + [section])];
      assert sections[..i + 1][..i] == sections[..i];
    }
    assert sections[..|sections|] == sections;
  }

  /** The `/constitution/sections` reducer: parts, and inside each part its chapters. */
  method GroupSectionsByPart(rows: seq<SectionRow>) returns (groupedSections: map<string, PartGroup>)
    ensures groupedSections == GroupByPart(ToSections(rows))
  {
    var sections := ToSections(rows);
    groupedSections := map[];
    for i := 0 to |sections|
      invariant groupedSections == GroupByPart(sections[..i])
    {
      var section := sections[i];
      ghost var before := groupedSections;
      var partKey := PartKey(section);
      if partKey !in groupedSections {
        groupedSections := groupedSections[partKey := PartGroup(PartTitle(section), map[])];
      }
      var part := groupedSections[partKey];
      var chapterKey := ChapterKey(section);
      var chapters := part.chapters;
      if chapterKey !in chapters {
        chapters := chapters[chapterKey := ChapterGroup(ChapterTitle(section), [])];
      }
      var group := chapters[chapterKey];
      chapters := chapters[chapterKey := ChapterGroup(group.chapterTitle, group.sections + [section])];
      assert chapters == AddToChapter(part.chapters, section);
      groupedSections := groupedSections[partKey := PartGroup(part.partTitle, chapters)];
      assert groupedSections == AddToPart(before, section);
      assert sections[..i + 1][..i] == sections[..i];
    }
    assert sections[..|sections|] == sections;
  }
}
