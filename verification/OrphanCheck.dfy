/** The search of the table of contents for articles it cannot reach (app/components/TableOfContents.tsx). */
module OrphanCheck {
  import opened Wrappers
  import opened Sequences
  import opened Decimals
  import opened TableStructure

  /** `Array.prototype.find` by title or number: the first node that matches. */
  function FindPart(parts: seq<PartNode>, title: string): (r: Option<PartNode>)
    ensures r.Some? ==> r.value in parts && r.value.title == title
    ensures (exists p :: p in parts && p.title == title) ==> r.Some?
  {
    if parts == [] then None else if parts[0].title == title then Some(parts[0]) else FindPart(parts[1..], title)
  }

  function FindChapter(chapters: seq<ChapterNode>, title: string): (r: Option<ChapterNode>)
    ensures r.Some? ==> r.value in chapters && r.value.title == title
    ensures (exists c :: c in chapters && c.title == title) ==> r.Some?
  {
    if chapters == [] then None else if chapters[0].title == title then Some(chapters[0]) else FindChapter(chapters[1..], title)
  }

  function FindSection(sections: seq<SectionNode>, num: string): (r: Option<SectionNode>)
    ensures r.Some? ==> r.value in sections && r.value.num == num
    ensures (exists s :: s in sections && s.num == num) ==> r.Some?
  {
    if sections == [] then None else if sections[0].num == num then Some(sections[0]) else FindSection(sections[1..], num)
  }

  predicate SectionHolds(st: Structure, num: string, x: string) {
    var s := FindSection(st.sections, num);
    s.Some? && x in s.value.articles
  }

  predicate NodeChapterHolds(st: Structure, c: ChapterNode, x: string) {
    x in c.articles || exists num | num in c.sections :: SectionHolds(st, num, x)
  }

  predicate ChapterHolds(st: Structure, title: string, x: string) {
    var c := FindChapter(st.chapters, title);
    c.Some? && NodeChapterHolds(st, c.value, x)
  }

  predicate NodePartHolds(st: Structure, p: PartNode, x: string) {
    x in p.articles || exists title | title in p.chapters :: ChapterHolds(st, title, x)
  }

  predicate PartHolds(st: Structure, title: string, x: string) {
    var p := FindPart(st.parts, title);
    p.Some? && NodePartHolds(st, p.value, x)
  }

  predicate DivisionHolds(st: Structure, d: DivisionNode, x: string) {
    || x in d.articles
    || (exists title | title in d.parts :: PartHolds(st, title, x))
    || (exists title | title in d.chapters :: ChapterHolds(st, title, x))
  }

  /** What the filter says of one article number. */
  predicate IsOrphan(st: Structure, x: string) {
    if st.divisions == [] then
      && !(exists p | p in st.parts :: NodePartHolds(st, p, x))
      && !(exists c | c in st.chapters :: NodeChapterHolds(st, c, x))
      && !(exists s | s in st.sections :: x in s.articles)
    else
      !(exists d | d in st.divisions :: DivisionHolds(st, d, x))
  }

  function Orphans(st: Structure, articles: seq<Article>): seq<Article> {
    if articles == [] then []
    else
      var rest := Orphans(st, articles[1..]);
      if IsOrphan(st, articles[0].articleNumber) then [articles[0]] + rest else rest
  }

  // ---------------------------------------------------------------- every article is reachable

  /** What a node found by title or number lists. */
  lemma PartNodeLists(articles: seq<Article>, title: string)
    requires title in Pick(articles, Parts)
    ensures FindPart(PartNodes(articles), title).Some?
    ensures var p := FindPart(PartNodes(articles), title).value;
      p.chapters == Pick(articles, ChaptersOfPart(title)) && p.articles == Pick(articles, ArticlesOfPart(title))
  {
    hide Pick;
    hide ToDecimal;
    hide FindPart;
    var nodes, titles := PartNodes(articles), Pick(articles, Parts);
    var i :| 0 <= i < |titles| && titles[i] == title;
    assert nodes[i].title == title && nodes[i] in nodes;
    var j :| 0 <= j < |nodes| && nodes[j] == FindPart(nodes, title).value;
  }

  lemma ChapterNodeLists(articles: seq<Article>, title: string)
    requires title in Pick(articles, Chapters)
    ensures FindChapter(ChapterNodes(articles), title).Some?
    ensures var c := FindChapter(ChapterNodes(articles), title).value;
      && c.sections == SectionNumbers(Pick(articles, Sections), Pick(articles, SectionsOf(title)))
      && c.articles == Pick(articles, ArticlesOfChapter(title))
  {
    hide Pick;
    hide ToDecimal;
    hide FindChapter;
    hide SectionNumbers;
    var nodes, titles := ChapterNodes(articles), Pick(articles, Chapters);
    var i :| 0 <= i < |titles| && titles[i] == title;
    assert nodes[i].title == title && nodes[i] in nodes;
    var j :| 0 <= j < |nodes| && nodes[j] == FindChapter(nodes, title).value;
  }

  /** A section is found by the position of its title, so no other section can be taken for it. */
  lemma SectionNodeLists(articles: seq<Article>, title: string)
    requires title in Pick(articles, Sections)
    ensures var num := ToDecimal(IndexOf(Pick(articles, Sections), title) + 1);
      && FindSection(SectionNodes(articles), num).Some?
      && FindSection(SectionNodes(articles), num).value.title == title
      && FindSection(SectionNodes(articles), num).value.articles == Pick(articles, ArticlesOfSection(title))
  {
    hide Pick;
    hide ToDecimal;
    hide FindSection;
    var nodes, titles := SectionNodes(articles), Pick(articles, Sections);
    var i := IndexOf(titles, title);
    hide IndexOf;
    var num := ToDecimal(i + 1);
    assert nodes[i] == SectionFor(articles, i + 1, title) && nodes[i] in nodes;
    var found := FindSection(nodes, num);
    var j :| 0 <= j < |nodes| && nodes[j] == found.value;
    assert found.value == SectionFor(articles, j + 1, titles[j]);
    DistinctPrints(i + 1, j + 1);
    hide SectionNodes;
    assert i == j;
  }

  lemma SectionNumberOf(all: seq<string>, titles: seq<string>, title: string)
    requires title in titles
    ensures ToDecimal(IndexOf(all, title) + 1) in SectionNumbers(all, titles)
  {
    var k :| 0 <= k < |titles| && titles[k] == title;
    hide ToDecimal;
    assert SectionNumbers(all, titles)[k] == ToDecimal(IndexOf(all, title) + 1);
  }

  lemma ChapterFound(articles: seq<Article>, st: Structure, a: Article)
    requires st.chapters == ChapterNodes(articles) && st.sections == SectionNodes(articles)
    requires a in articles && a.chapter != ""
    ensures ChapterHolds(st, a.chapter, a.articleNumber)
  {
    ChapterLists(articles, a);
    ChapterNodeLists(articles, a.chapter);
    var c := FindChapter(st.chapters, a.chapter).value;
    if a.section == "" {
      assert a.articleNumber in c.articles;
    } else {
      hide Pick;
      hide FindSection;
      hide IndexOf;
      hide ToDecimal;
      var num := ToDecimal(IndexOf(Pick(articles, Sections), a.section) + 1);
      SectionNodeLists(articles, a.section);
      SectionNumberOf(Pick(articles, Sections), Pick(articles, SectionsOf(a.chapter)), a.section);
      assert num in c.sections;
      assert SectionHolds(st, num, a.articleNumber);
    }
    hide SectionHolds;
    assert NodeChapterHolds(st, c, a.articleNumber);
    hide NodeChapterHolds;
  }

  lemma PartFound(articles: seq<Article>, st: Structure, a: Article)
    requires st.parts == PartNodes(articles) && st.chapters == ChapterNodes(articles) && st.sections == SectionNodes(articles)
    requires a in articles && a.part != ""
    ensures PartHolds(st, a.part, a.articleNumber)
  {
    PartLists(articles, a);
    PartNodeLists(articles, a.part);
    var p := FindPart(st.parts, a.part).value;
    hide Pick;
    if a.chapter != "" {
      ChapterFound(articles, st, a);
      assert a.chapter in p.chapters;
    }
    hide ChapterHolds;
    assert NodePartHolds(st, p, a.articleNumber);
    hide NodePartHolds;
  }

  lemma NotOrphan(articles: seq<Article>, a: Article)
    requires a in articles
    ensures !IsOrphan(StructureOf(articles), a.articleNumber)
  {
    var st, d := StructureOf(articles), DivisionOf(a);
    var titles := MainFirst(Pick(articles, Divisions));
    DivisionLists(articles, a);
    assert d in titles;
    var i :| 0 <= i < |titles| && titles[i] == d;
    var node := st.divisions[i];
    assert node == DivisionFor(articles, i + 1, d) && node in st.divisions;
    if a.part != "" {
      PartFound(articles, st, a);
    } else if a.chapter != "" {
      ChapterFound(articles, st, a);
    }
    hide StructureOf;
    hide PartHolds;
    hide ChapterHolds;
    hide Pick;
    assert DivisionHolds(st, node, a.articleNumber);
    hide DivisionHolds;
  }

  lemma {:induction false} NoOrphansAmong(articles: seq<Article>, some: seq<Article>)
    requires forall a :: a in some ==> a in articles
    ensures Orphans(StructureOf(articles), some) == []
  {
    if some != [] {
      assert some[0] in some && forall a :: a in some[1..] ==> a in some;
      NotOrphan(articles, some[0]);
      NoOrphansAmong(articles, some[1..]);
    }
  }

  /** The check can never find anything: every article of the law is reachable from some division. */
  lemma NoOrphans(articles: seq<Article>)
    ensures Orphans(StructureOf(articles), articles) == []
  {
    NoOrphansAmong(articles, articles);
  }
}
