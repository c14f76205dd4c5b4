/** The paths of the table of contents on which an article is shown. */
module TocPaths {
  import opened Wrappers
  import opened Sequences
  import opened Decimals
  import opened TableStructure
  import opened OrphanCheck
  import opened TocPartition

  datatype Path = Path(division: string, part: Option<string>, chapter: Option<string>, section: Option<string>)

  function Named(title: string): Option<string> {
    if title == "" then None else Some(title)
  }

  /** The path that the titles of an article spell out. */
  function PathOf(a: Article): Path {
    Path(DivisionOf(a), Named(a.part), Named(a.chapter), if a.chapter == "" then None else Named(a.section))
  }

  // ---------------------------------------------------------------- following a path through the tree

  predicate SectionShows(st: Structure, num: string, title: string, x: string) {
    var s := FindSection(st.sections, num);
    s.Some? && s.value.title == title && x in s.value.articles
  }

  predicate ChapterShows(st: Structure, title: string, section: Option<string>, x: string) {
    var c := FindChapter(st.chapters, title);
    c.Some? &&
      if section.None? then x in c.value.articles
      else exists num | num in c.value.sections :: SectionShows(st, num, section.value, x)
  }

  predicate PartShows(st: Structure, title: string, p: Path, x: string) {
    var n := FindPart(st.parts, title);
    n.Some? &&
      if p.chapter.None? then p.section.None? && x in n.value.articles
      else p.chapter.value in n.value.chapters && ChapterShows(st, p.chapter.value, p.section, x)
  }

  predicate DivisionShows(st: Structure, d: DivisionNode, p: Path, x: string) {
    if p.part.Some? then p.part.value in d.parts && PartShows(st, p.part.value, p, x)
    else if p.chapter.Some? then p.chapter.value in d.chapters && ChapterShows(st, p.chapter.value, p.section, x)
    else p.section.None? && x in d.articles
  }

  /** Opening the nodes of the path leads to the article number x. */
  predicate Shows(st: Structure, p: Path, x: string) {
    exists d | d in st.divisions :: d.title == p.division && DivisionShows(st, d, p, x)
  }

  // ---------------------------------------------------------------- the articles that make a path

  ghost predicate Answered(articles: seq<Article>, q: Query, x: string) {
    exists a :: a in articles && Asked(q, a) && Answer(q, a) == x
  }

  lemma PickedIffAnswered(articles: seq<Article>, q: Query, x: string)
    ensures x in Pick(articles, q) <==> Answered(articles, q, x)
  {
    PickHolds(articles, q);
    hide Pick;
    hide Asked;
    hide Answer;
    if x in Pick(articles, q) {
      var i :| 0 <= i < |articles| && Asked(q, articles[i]) && Answer(q, articles[i]) == x;
      assert articles[i] in articles;
    }
  }

  function LeafOfPath(p: Path): Leaf {
    if p.section.Some? then InSection(p.section.value)
    else if p.chapter.Some? then InChapter(p.chapter.value)
    else if p.part.Some? then InPart(p.part.value)
    else InDivision(p.division)
  }

  /** Each step of the path is taken by the titles of some article. */
  ghost predicate Linked(articles: seq<Article>, p: Path, x: string) {
    && (p.section.Some? ==> p.chapter.Some? && Answered(articles, SectionsOf(p.chapter.value), p.section.value))
    && (p.chapter.Some? ==>
          Answered(articles, if p.part.Some? then ChaptersOfPart(p.part.value) else ChaptersOfDivision(p.division), p.chapter.value))
    && (p.part.Some? ==> Answered(articles, PartsOf(p.division), p.part.value))
    && Answered(articles, LeafQuery(LeafOfPath(p)), x)
  }

  lemma NumberShows(articles: seq<Article>, listed: string, title: string, x: string)
    requires listed in Pick(articles, Sections)
    ensures SectionShows(StructureOf(articles), ToDecimal(IndexOf(Pick(articles, Sections), listed) + 1), title, x) <==>
      title == listed && x in Pick(articles, ArticlesOfSection(listed))
  {
    SectionNodeLists(articles, listed);
    hide Pick;
    hide FindSection;
    hide SectionNodes;
    hide ToDecimal;
    hide IndexOf;
  }

  lemma SectionShowsIff(articles: seq<Article>, chapter: string, title: string, x: string)
    requires chapter in Pick(articles, Chapters)
    ensures ChapterShows(StructureOf(articles), chapter, Some(title), x) <==>
      title in Pick(articles, SectionsOf(chapter)) && x in Pick(articles, ArticlesOfSection(title))
  {
    hide Pick;
    hide FindChapter;
    hide SectionShows;
    hide ToDecimal;
    hide IndexOf;
    var st := StructureOf(articles);
    var all, titles := Pick(articles, Sections), Pick(articles, SectionsOf(chapter));
    ChapterNodeLists(articles, chapter);
    SectionsAreListed(articles, chapter);
    var nums := SectionNumbers(all, titles);
    assert FindChapter(st.chapters, chapter).value.sections == nums;
    if title in titles && x in Pick(articles, ArticlesOfSection(title)) {
      SectionNumberOf(all, titles, title);
      NumberShows(articles, title, title, x);
      assert SectionShows(st, ToDecimal(IndexOf(all, title) + 1), title, x);
    }
    if num :| num in nums && SectionShows(st, num, title, x) {
      var k :| 0 <= k < |nums| && nums[k] == num;
      NumberShows(articles, titles[k], title, x);
    }
  }

  lemma ChapterShowsIff(articles: seq<Article>, chapter: string, section: Option<string>, x: string)
    requires chapter in Pick(articles, Chapters)
    ensures ChapterShows(StructureOf(articles), chapter, section, x) <==>
      if section.None? then x in Pick(articles, ArticlesOfChapter(chapter))
      else section.value in Pick(articles, SectionsOf(chapter)) && x in Pick(articles, ArticlesOfSection(section.value))
  {
    if section.Some? {
      SectionShowsIff(articles, chapter, section.value, x);
    } else {
      ChapterNodeLists(articles, chapter);
    }
    hide Pick;
    hide FindChapter;
    hide FindSection;
  }

  lemma ChapterTitles(articles: seq<Article>, q: Query, chapter: string)
    requires q.ChaptersOfPart? || q.ChaptersOfDivision?
    requires chapter in Pick(articles, q)
    ensures chapter in Pick(articles, Chapters)
  {
    PickedIffAnswered(articles, q, chapter);
    PickedIffAnswered(articles, Chapters, chapter);
  }

  lemma PartTitles(articles: seq<Article>, division: string, part: string)
    requires part in Pick(articles, PartsOf(division))
    ensures part in Pick(articles, Parts)
  {
    PickedIffAnswered(articles, PartsOf(division), part);
    PickedIffAnswered(articles, Parts, part);
  }

  // ---------------------------------------------------------------- paths shown are paths linked

  /** What the pages below a chapter must list. */
  ghost predicate ChapterLinked(articles: seq<Article>, q: Query, p: Path, x: string) {
    && p.chapter.Some? && p.chapter.value in Pick(articles, q)
    && (p.section.Some? ==> p.section.value in Pick(articles, SectionsOf(p.chapter.value)))
    && x in Pick(articles, LeafQuery(LeafOfPath(p)))
  }

  lemma ChapterLink(articles: seq<Article>, q: Query, p: Path, x: string)
    requires q.ChaptersOfPart? || q.ChaptersOfDivision?
    requires p.chapter.Some?
    ensures p.chapter.value in Pick(articles, q) && ChapterShows(StructureOf(articles), p.chapter.value, p.section, x) <==>
      ChapterLinked(articles, q, p, x)
  {
    if p.chapter.value in Pick(articles, q) {
      ChapterTitles(articles, q, p.chapter.value);
      ChapterShowsIff(articles, p.chapter.value, p.section, x);
    }
    hide Pick;
    hide ChapterShows;
  }

  lemma PartShowsIff(articles: seq<Article>, p: Path, x: string)
    requires p.part.Some? && p.part.value in Pick(articles, Parts)
    ensures PartShows(StructureOf(articles), p.part.value, p, x) <==>
      if p.chapter.Some? then ChapterLinked(articles, ChaptersOfPart(p.part.value), p, x)
      else p.section.None? && x in Pick(articles, ArticlesOfPart(p.part.value))
  {
    PartNodeLists(articles, p.part.value);
    if p.chapter.Some? { ChapterLink(articles, ChaptersOfPart(p.part.value), p, x); }
    hide Pick;
    hide FindPart;
    hide ChapterShows;
    hide ChapterLinked;
  }

  /** The links of a path, as the lists of the tree hold them. */
  ghost predicate Listed(articles: seq<Article>, p: Path, x: string) {
    && (p.part.Some? ==> p.part.value in Pick(articles, PartsOf(p.division)))
    && (p.section.Some? ==> p.chapter.Some?)
    && (if p.chapter.Some? then
          ChapterLinked(articles, if p.part.Some? then ChaptersOfPart(p.part.value) else ChaptersOfDivision(p.division), p, x)
        else x in Pick(articles, LeafQuery(LeafOfPath(p))))
  }

  lemma DivisionShowsIff(articles: seq<Article>, n: nat, p: Path, x: string)
    ensures DivisionShows(StructureOf(articles), DivisionFor(articles, n, p.division), p, x) <==> Listed(articles, p, x)
  {
    var q := ChaptersOfDivision(p.division);
    if p.part.Some? {
      if p.part.value in Pick(articles, PartsOf(p.division)) {
        PartTitles(articles, p.division, p.part.value);
        PartShowsIff(articles, p, x);
      }
    } else if p.chapter.Some? {
      ChapterLink(articles, q, p, x);
    }
    hide Pick;
    hide PartShows;
    hide ChapterShows;
    hide ChapterLinked;
    hide StructureOf;
  }

  /** A linked path starts at a division of the law. */
  lemma LinkedDivision(articles: seq<Article>, p: Path, x: string)
    requires Linked(articles, p, x)
    ensures p.division in Pick(articles, Divisions)
  {
    var q := if p.part.Some? then PartsOf(p.division) else if p.chapter.Some? then ChaptersOfDivision(p.division)
             else ArticlesOfDivision(p.division);
    var y := if p.part.Some? then p.part.value else if p.chapter.Some? then p.chapter.value else x;
    assert Answered(articles, q, y);
    var a :| a in articles && Asked(q, a) && Answer(q, a) == y;
    assert Asked(Divisions, a) && Answer(Divisions, a) == p.division;
    PickAsked(articles, Divisions, a);
  }

  lemma ListedIffLinked(articles: seq<Article>, p: Path, x: string)
    ensures Listed(articles, p, x) <==> Linked(articles, p, x)
  {
    if p.part.Some? { PickedIffAnswered(articles, PartsOf(p.division), p.part.value); }
    if p.chapter.Some? {
      PickedIffAnswered(articles, if p.part.Some? then ChaptersOfPart(p.part.value) else ChaptersOfDivision(p.division), p.chapter.value);
      if p.section.Some? { PickedIffAnswered(articles, SectionsOf(p.chapter.value), p.section.value); }
    }
    PickedIffAnswered(articles, LeafQuery(LeafOfPath(p)), x);
    hide Pick;
    hide Answered;
    hide LeafOfPath;
  }

  lemma ShowsIffLinked(articles: seq<Article>, p: Path, x: string)
    ensures Shows(StructureOf(articles), p, x) <==> Linked(articles, p, x)
  {
    var nodes, titles := DivisionNodes(articles), MainFirst(Pick(articles, Divisions));
    ListedIffLinked(articles, p, x);
    hide Pick;
    hide DivisionShows;
    hide Listed;
    if d :| d in nodes && d.title == p.division && DivisionShows(StructureOf(articles), d, p, x) {
      var i :| 0 <= i < |nodes| && nodes[i] == d;
      DivisionShowsIff(articles, i + 1, p, x);
    }
    if Linked(articles, p, x) {
      LinkedDivision(articles, p, x);
      assert p.division in titles;
      var i :| 0 <= i < |titles| && titles[i] == p.division;
      DivisionShowsIff(articles, i + 1, p, x);
      assert nodes[i] in nodes && nodes[i].title == p.division;
    }
    hide Linked;
  }

  // ---------------------------------------------------------------- the links, title by title

  /** The articles without a division make up 本則. */
  predicate OfDivision(a: Article, d: string) {
    if a.division == "" then d == "本則" else a.division == d
  }

  ghost predicate PartTitled(articles: seq<Article>, division: string, part: string) {
    part != "" && exists a :: a in articles && OfDivision(a, division) && a.part == part
  }

  ghost predicate ChapterTitled(articles: seq<Article>, p: Path, chapter: string) {
    && chapter != ""
    && if p.part.Some? then p.part.value != "" && exists a :: a in articles && a.part == p.part.value && a.chapter == chapter
       else exists a :: a in articles && OfDivision(a, p.division) && a.part == "" && a.chapter == chapter
  }

  ghost predicate SectionTitled(articles: seq<Article>, chapter: string, section: string) {
    chapter != "" && section != "" && exists a :: a in articles && a.chapter == chapter && a.section == section
  }

  /** The article a is listed at the last node of the path. */
  predicate AtEnd(a: Article, p: Path) {
    match p
    case Path(_, _, _, Some(section)) => section != "" && a.chapter != "" && a.section == section
    case Path(_, _, Some(chapter), None) => chapter != "" && a.chapter == chapter && a.section == ""
    case Path(_, Some(part), None, None) => part != "" && a.part == part && a.chapter == ""
    case Path(division, None, None, None) => OfDivision(a, division) && a.part == "" && a.chapter == ""
  }

  /**
    A path shows an article number exactly when its part stands in its division, its chapter in its part (or, without
    one, directly in its division), its section in its chapter, each by the titles of some article, and an article of
    that number ends there. Different articles may carry the different steps.
  */
  lemma ShownIffTitled(articles: seq<Article>, p: Path, x: string)
    ensures Shows(StructureOf(articles), p, x) <==>
      && (p.part.Some? ==> PartTitled(articles, p.division, p.part.value))
      && (p.chapter.Some? ==> ChapterTitled(articles, p, p.chapter.value))
      && (p.section.Some? ==> p.chapter.Some? && SectionTitled(articles, p.chapter.value, p.section.value))
      && exists a :: a in articles && a.articleNumber == x && AtEnd(a, p)
  {
    ShowsIffLinked(articles, p, x);
    hide Shows;
    hide StructureOf;
    if p.part.Some? { PartLinks(articles, p.division, p.part.value); }
    if p.chapter.Some? {
      ChapterLinks(articles, p, p.chapter.value);
      if p.section.Some? { SectionLinks(articles, p.chapter.value, p.section.value); }
    }
    EndLinks(articles, p, x);
    hide Answered;
    hide PartTitled;
    hide ChapterTitled;
    hide SectionTitled;
    hide AtEnd;
    hide LeafOfPath;
  }

  lemma PartLinks(articles: seq<Article>, division: string, part: string)
    ensures Answered(articles, PartsOf(division), part) <==> PartTitled(articles, division, part)
  {
    var q := PartsOf(division);
    if PartTitled(articles, division, part) {
      var a :| a in articles && OfDivision(a, division) && a.part == part;
      assert Asked(q, a) && Answer(q, a) == part;
    }
  }

  lemma ChapterLinks(articles: seq<Article>, p: Path, chapter: string)
    ensures Answered(articles, if p.part.Some? then ChaptersOfPart(p.part.value) else ChaptersOfDivision(p.division), chapter) <==>
      ChapterTitled(articles, p, chapter)
  {
    var q := if p.part.Some? then ChaptersOfPart(p.part.value) else ChaptersOfDivision(p.division);
    if ChapterTitled(articles, p, chapter) {
      var a :| a in articles && a.chapter == chapter &&
        if p.part.Some? then a.part == p.part.value else a.part == "" && OfDivision(a, p.division);
      assert Asked(q, a) && Answer(q, a) == chapter;
    }
  }

  lemma SectionLinks(articles: seq<Article>, chapter: string, section: string)
    ensures Answered(articles, SectionsOf(chapter), section) <==> SectionTitled(articles, chapter, section)
  {
    var q := SectionsOf(chapter);
    if SectionTitled(articles, chapter, section) {
      var a :| a in articles && a.chapter == chapter && a.section == section;
      assert Asked(q, a) && Answer(q, a) == section;
    }
  }

  lemma EndLinks(articles: seq<Article>, p: Path, x: string)
    ensures Answered(articles, LeafQuery(LeafOfPath(p)), x) <==>
      exists a :: a in articles && a.articleNumber == x && AtEnd(a, p)
  {
    var q := LeafQuery(LeafOfPath(p));
    if a :| a in articles && a.articleNumber == x && AtEnd(a, p) {
      assert Asked(q, a) && Answer(q, a) == x;
    }
    if Answered(articles, q, x) {
      var a :| a in articles && Asked(q, a) && Answer(q, a) == x;
      assert AtEnd(a, p);
    }
  }

  // ---------------------------------------------------------------- articles shown in one place only

  /** b shares no title with a under which a would be shown elsewhere. */
  predicate Agrees(a: Article, b: Article) {
    && (a.chapter != "" && a.section != "" && b.chapter != "" && b.section == a.section ==> b.chapter == a.chapter)
    && (a.chapter != "" && b.chapter == a.chapter ==> b.part == a.part && (a.part == "" ==> DivisionOf(b) == DivisionOf(a)))
    && (a.part != "" && b.part == a.part ==> DivisionOf(b) == DivisionOf(a))
  }

  lemma AnsweredBy(articles: seq<Article>, q: Query, a: Article)
    requires a in articles && Asked(q, a)
    ensures Answered(articles, q, Answer(q, a))
  {
  }

  /** An article is linked along its own titles, and along those of b that it shares. */
  lemma LinkedBy(articles: seq<Article>, p: Path, a: Article, b: Article)
    requires a in articles && b in articles && LeafOfPath(p) == LeafOf(a)
    requires p.part == Named(b.part) && p.division == DivisionOf(b)
    requires p.chapter == Named(b.chapter)
    requires p.section.Some? ==> p.chapter.Some?
    requires p.section.Some? ==> p.section == Named(b.section) || (p.section == Named(a.section) && a.chapter == b.chapter)
    ensures Linked(articles, p, a.articleNumber)
  {
    AskedIffLeaf(LeafOf(a), a);
    AnsweredBy(articles, LeafQuery(LeafOf(a)), a);
    if p.part.Some? { AnsweredBy(articles, PartsOf(p.division), b); }
    if p.chapter.Some? {
      AnsweredBy(articles, if p.part.Some? then ChaptersOfPart(p.part.value) else ChaptersOfDivision(p.division), b);
      if p.section.Some? { AnsweredBy(articles, SectionsOf(p.chapter.value), if p.section == Named(b.section) then b else a); }
    }
    hide Answered;
    hide LeafOfPath;
  }

  lemma OwnPath(articles: seq<Article>, a: Article)
    requires a in articles
    ensures Linked(articles, PathOf(a), a.articleNumber)
  {
    LinkedBy(articles, PathOf(a), a, a);
  }

  /** Where a disagrees with b, it is also linked along a path of b's titles. */
  lemma OtherPath(articles: seq<Article>, a: Article, b: Article) returns (p: Path)
    requires a in articles && b in articles && !Agrees(a, b)
    ensures p != PathOf(a) && Linked(articles, p, a.articleNumber)
  {
    if a.chapter != "" && a.section != "" && b.chapter != "" && b.section == a.section && b.chapter != a.chapter {
      p := PathOf(b);
      LinkedBy(articles, p, a, b);
    } else if a.chapter != "" && b.chapter == a.chapter {
      p := Path(DivisionOf(b), Named(b.part), Named(b.chapter), Named(a.section));
      LinkedBy(articles, p, a, b);
    } else {
      p := Path(DivisionOf(b), PathOf(a).part, PathOf(a).chapter, PathOf(a).section);
      OwnPath(articles, a);
      AnsweredBy(articles, PartsOf(DivisionOf(b)), b);
      hide Answered;
      assert LeafOfPath(p) == LeafOfPath(PathOf(a));
    }
  }

  lemma LeafIsOwn(articles: seq<Article>, p: Path, a: Article)
    requires a in articles && Linked(articles, p, a.articleNumber)
    requires forall b :: b in articles && b.articleNumber == a.articleNumber ==> b == a
    ensures LeafOfPath(p) == LeafOf(a)
  {
    var q := LeafQuery(LeafOfPath(p));
    var b :| b in articles && Asked(q, b) && Answer(q, b) == a.articleNumber;
    AskedIffLeaf(LeafOfPath(p), b);
  }

  /** Where a agrees with every article, each step of a path to it is its own. */
  lemma PathIsOwn(articles: seq<Article>, p: Path, a: Article)
    requires a in articles && Linked(articles, p, a.articleNumber)
    requires forall b :: b in articles && b.articleNumber == a.articleNumber ==> b == a
    requires forall b :: b in articles ==> Agrees(a, b)
    ensures p == PathOf(a)
  {
    LeafIsOwn(articles, p, a);
    if p.section.Some? {
      var q := SectionsOf(p.chapter.value);
      var b :| b in articles && Asked(q, b) && Answer(q, b) == p.section.value;
      assert Agrees(a, b);
    }
    assert p.chapter == Named(a.chapter);
    if p.chapter.Some? {
      var q := if p.part.Some? then ChaptersOfPart(p.part.value) else ChaptersOfDivision(p.division);
      var b :| b in articles && Asked(q, b) && Answer(q, b) == p.chapter.value;
      assert Agrees(a, b);
    }
    assert p.part == Named(a.part);
    if p.part.Some? {
      var q := PartsOf(p.division);
      var b :| b in articles && Asked(q, b) && Answer(q, b) == p.part.value;
      assert Agrees(a, b);
    }
  }

  /**
    An article is always shown on the path of its own titles. It is shown on no other exactly when no article of
    another chapter, part or division shares its section, chapter or part title.
  */
  lemma ShownOnceIff(articles: seq<Article>, a: Article)
    requires a in articles
    requires forall b :: b in articles && b.articleNumber == a.articleNumber ==> b == a
    ensures Shows(StructureOf(articles), PathOf(a), a.articleNumber)
    ensures (forall b :: b in articles ==> Agrees(a, b)) <==>
      forall p :: Shows(StructureOf(articles), p, a.articleNumber) ==> p == PathOf(a)
  {
    OwnPath(articles, a);
    ShowsIffLinked(articles, PathOf(a), a.articleNumber);
    hide Shows;
    hide StructureOf;
    hide Agrees;
    hide Linked;
    hide PathOf;
    if forall b :: b in articles ==> Agrees(a, b) {
      forall p | Shows(StructureOf(articles), p, a.articleNumber) ensures p == PathOf(a) {
        ShowsIffLinked(articles, p, a.articleNumber);
        PathIsOwn(articles, p, a);
      }
    } else {
      var b :| b in articles && !Agrees(a, b);
      var p := OtherPath(articles, a, b);
      ShowsIffLinked(articles, p, a.articleNumber);
    }
  }
}
