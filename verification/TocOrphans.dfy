/** What the search for orphans finds, in a tree of any shape. */
module TocOrphans {
  import opened Wrappers
  import opened Sequences
  import opened TableStructure
  import opened OrphanCheck
  import opened TocPartition
  import opened TocPaths

  // ---------------------------------------------------------------- what is found is shown on some path

  lemma ChapterHoldsShows(st: Structure, title: string, x: string) returns (section: Option<string>)
    requires ChapterHolds(st, title, x)
    ensures ChapterShows(st, title, section, x)
  {
    var c := FindChapter(st.chapters, title).value;
    section := None;
    if x !in c.articles {
      var num :| num in c.sections && SectionHolds(st, num, x);
      section := Some(FindSection(st.sections, num).value.title);
      assert SectionShows(st, num, section.value, x);
    }
  }

  lemma PartHoldsShows(st: Structure, title: string, d: string, x: string) returns (p: Path)
    requires PartHolds(st, title, x)
    ensures p.division == d && p.part == Some(title) && PartShows(st, title, p, x)
  {
    var n := FindPart(st.parts, title).value;
    p := Path(d, Some(title), None, None);
    hide ChapterHolds;
    hide ChapterShows;
    if x !in n.articles {
      var c :| c in n.chapters && ChapterHolds(st, c, x);
      var s := ChapterHoldsShows(st, c, x);
      p := Path(d, Some(title), Some(c), s);
    }
  }

  lemma DivisionHoldsShows(st: Structure, d: DivisionNode, x: string) returns (p: Path)
    requires DivisionHolds(st, d, x)
    ensures p.division == d.title && DivisionShows(st, d, p, x)
  {
    hide PartHolds;
    hide ChapterHolds;
    hide PartShows;
    hide ChapterShows;
    if title :| title in d.parts && PartHolds(st, title, x) {
      p := PartHoldsShows(st, title, d.title, x);
    } else if title :| title in d.chapters && ChapterHolds(st, title, x) {
      var s := ChapterHoldsShows(st, title, x);
      p := Path(d.title, None, Some(title), s);
    } else {
      p := Path(d.title, None, None, None);
    }
  }

  // ---------------------------------------------------------------- what is shown on some path is found

  lemma ChapterShowsHolds(st: Structure, title: string, section: Option<string>, x: string)
    requires ChapterShows(st, title, section, x)
    ensures ChapterHolds(st, title, x)
  {
    var c := FindChapter(st.chapters, title).value;
    if section.Some? {
      var num :| num in c.sections && SectionShows(st, num, section.value, x);
      assert SectionHolds(st, num, x);
    }
    assert NodeChapterHolds(st, c, x);
  }

  lemma PartShowsHolds(st: Structure, title: string, p: Path, x: string)
    requires PartShows(st, title, p, x)
    ensures PartHolds(st, title, x)
  {
    if p.chapter.Some? { ChapterShowsHolds(st, p.chapter.value, p.section, x); }
    hide ChapterHolds;
    hide ChapterShows;
    assert NodePartHolds(st, FindPart(st.parts, title).value, x);
  }

  lemma DivisionShowsHolds(st: Structure, d: DivisionNode, p: Path, x: string)
    requires DivisionShows(st, d, p, x)
    ensures DivisionHolds(st, d, x)
  {
    if p.part.Some? {
      PartShowsHolds(st, p.part.value, p, x);
    } else if p.chapter.Some? {
      ChapterShowsHolds(st, p.chapter.value, p.section, x);
    }
    hide PartHolds;
    hide ChapterHolds;
    hide PartShows;
    hide ChapterShows;
  }

  // ---------------------------------------------------------------- when an article is an orphan

  /** In a tree with divisions, an article is an orphan exactly when no path leads to it. */
  lemma OrphanIffHidden(st: Structure, x: string)
    requires st.divisions != []
    ensures IsOrphan(st, x) <==> !exists p :: Shows(st, p, x)
  {
    hide DivisionHolds;
    hide DivisionShows;
    if d :| d in st.divisions && DivisionHolds(st, d, x) {
      var p := DivisionHoldsShows(st, d, x);
      assert Shows(st, p, x);
    }
    if p :| Shows(st, p, x) {
      var d :| d in st.divisions && d.title == p.division && DivisionShows(st, d, p, x);
      DivisionShowsHolds(st, d, p, x);
    }
  }

  /** In a tree without divisions, it is one exactly when no part, chapter or section lists it. */
  lemma OrphanIffUnlisted(st: Structure, x: string)
    requires st.divisions == []
    ensures IsOrphan(st, x) <==>
      && (forall p :: p in st.parts ==> x !in p.articles)
      && (forall c :: c in st.chapters ==> x !in c.articles)
      && (forall s :: s in st.sections ==> x !in s.articles)
  {
    if s :| s in st.sections && x in s.articles {
      assert !IsOrphan(st, x);
    } else if c :| c in st.chapters && x in c.articles {
      assert NodeChapterHolds(st, c, x);
    } else if p :| p in st.parts && x in p.articles {
      assert NodePartHolds(st, p, x);
    } else {
      forall c | c in st.chapters ensures !NodeChapterHolds(st, c, x) {
      }
      hide NodeChapterHolds;
      forall p | p in st.parts ensures !NodePartHolds(st, p, x) {
      }
    }
  }

  /** In the tree of a law, the search takes a number for an orphan exactly when no article has it. */
  lemma OrphanIffAbsent(articles: seq<Article>, x: string)
    ensures IsOrphan(StructureOf(articles), x) <==> forall a :: a in articles ==> a.articleNumber != x
  {
    var st := StructureOf(articles);
    if a :| a in articles && a.articleNumber == x {
      NotOrphan(articles, a);
    } else if articles == [] {
      OrphanIffUnlisted(st, x);
    } else {
      DivisionLists(articles, articles[0]);
      assert MainFirst(Pick(articles, Divisions)) != [];
      OrphanIffHidden(st, x);
      hide Pick;
      hide IsOrphan;
      hide Shows;
      hide Linked;
      forall p ensures !Shows(st, p, x) {
        ShowsIffLinked(articles, p, x);
        if Linked(articles, p, x) { LinkedIsArticle(articles, p, x); }
      }
    }
  }

  lemma LinkedIsArticle(articles: seq<Article>, p: Path, x: string)
    requires Linked(articles, p, x)
    ensures exists a :: a in articles && a.articleNumber == x
  {
    var q := LeafQuery(LeafOfPath(p));
    var a :| a in articles && Asked(q, a) && Answer(q, a) == x;
  }
}
