/** The order and the numbers of the nodes of the table of contents, and what the search for orphans looks for. */
module TocOrder {
  import opened Wrappers
  import opened Sequences
  import opened Decimals
  import opened TableStructure
  import opened OrphanCheck

  /** Each node carries its place, counted from 1. */
  lemma NodesAreNumbered(articles: seq<Article>, i: nat)
    ensures var st := StructureOf(articles);
      && (i < |st.divisions| ==> st.divisions[i].num == ToDecimal(i + 1))
      && (i < |st.parts| ==> st.parts[i].num == ToDecimal(i + 1))
      && (i < |st.chapters| ==> st.chapters[i].num == ToDecimal(i + 1))
      && (i < |st.sections| ==> st.sections[i].num == ToDecimal(i + 1))
  {
    hide Pick;
    hide ToDecimal;
    hide MainFirst;
  }

  // ---------------------------------------------------------------- order of first occurrence

  /** The article at i is the first one that gives the answer x. */
  ghost predicate FirstAnswer(articles: seq<Article>, q: Query, i: nat, x: string) {
    && i < |articles| && Asked(q, articles[i]) && Answer(q, articles[i]) == x
    && forall j :: 0 <= j < i && Asked(q, articles[j]) ==> Answer(q, articles[j]) != x
  }

  lemma FirstAnswerStays(front: seq<Article>, last: Article, q: Query, i: nat, x: string)
    requires FirstAnswer(front, q, i, x)
    ensures FirstAnswer(front + [last], q, i, x)
  {
    assert forall j :: 0 <= j < |front| ==> (front + [last])[j] == front[j];
    hide Asked;
    hide Answer;
  }

  /** Each answer picked has a first article that gives it, and the answers stand in the order of those articles. */
  lemma {:induction false} PickInOrder(articles: seq<Article>, q: Query, a: nat) returns (i: nat)
    requires a < |Pick(articles, q)|
    ensures FirstAnswer(articles, q, i, Pick(articles, q)[a])
    ensures forall b: nat, j: nat :: b < a && FirstAnswer(articles, q, j, Pick(articles, q)[b]) ==> j < i
  {
    var n, front := |articles| - 1, articles[..|articles| - 1];
    var picked := Pick(front, q);
    assert articles == front + [articles[n]];
    hide Asked;
    hide Answer;
    if a < |picked| {
      i := PickInOrder(front, q, a);
      FirstAnswerStays(front, articles[n], q, i, picked[a]);
      forall b: nat, j: nat | b < a && FirstAnswer(articles, q, j, Pick(articles, q)[b]) ensures j < i {
        var k := PickInOrder(front, q, b);
        FirstAnswerStays(front, articles[n], q, k, picked[b]);
        FirstIsUnique(articles, q, j, k, picked[b]);
        assert FirstAnswer(front, q, k, picked[b]);
      }
    } else {
      i := n;
      NewIsFirst(front, articles[n], q);
      forall b: nat, j: nat | b < a && FirstAnswer(articles, q, j, Pick(articles, q)[b]) ensures j < i {
        var k := PickInOrder(front, q, b);
        FirstAnswerStays(front, articles[n], q, k, picked[b]);
        FirstIsUnique(articles, q, j, k, picked[b]);
      }
    }
  }

  lemma FirstIsUnique(articles: seq<Article>, q: Query, i: nat, j: nat, x: string)
    requires FirstAnswer(articles, q, i, x) && FirstAnswer(articles, q, j, x)
    ensures i == j
  {
    hide Asked;
    hide Answer;
  }

  lemma NewIsFirst(front: seq<Article>, last: Article, q: Query)
    requires Asked(q, last) && Answer(q, last) !in Pick(front, q)
    ensures FirstAnswer(front + [last], q, |front|, Answer(q, last))
  {
    PickHolds(front, q);
    hide Pick;
    hide Asked;
    hide Answer;
    var all := front + [last];
    assert all[|front|] == last;
    forall j | 0 <= j < |front| && Asked(q, all[j]) ensures Answer(q, all[j]) != Answer(q, last) {
      assert all[j] == front[j];
    }
  }

  /** Parts, chapters and sections stand in the order of their sets, and each node lists its sets in theirs. */
  lemma NodesAreInOrder(articles: seq<Article>, i: nat)
    ensures var st := StructureOf(articles);
      && (i < |st.divisions| ==>
            var n := st.divisions[i];
            && n.parts == Pick(articles, PartsOf(n.title)) && n.chapters == Pick(articles, ChaptersOfDivision(n.title))
            && n.articles == Pick(articles, ArticlesOfDivision(n.title)))
      && |st.parts| == |Pick(articles, Parts)|
      && (i < |st.parts| ==>
            var n := st.parts[i];
            && n.title == Pick(articles, Parts)[i]
            && n.chapters == Pick(articles, ChaptersOfPart(n.title)) && n.articles == Pick(articles, ArticlesOfPart(n.title)))
      && |st.chapters| == |Pick(articles, Chapters)|
      && (i < |st.chapters| ==>
            var n := st.chapters[i];
            && n.title == Pick(articles, Chapters)[i] && |n.sections| == |Pick(articles, SectionsOf(n.title))|
            && n.articles == Pick(articles, ArticlesOfChapter(n.title)))
      && |st.sections| == |Pick(articles, Sections)|
      && (i < |st.sections| ==>
            var n := st.sections[i];
            n.title == Pick(articles, Sections)[i] && n.articles == Pick(articles, ArticlesOfSection(n.title)))
  {
    hide Pick;
    hide ToDecimal;
    hide MainFirst;
    hide IndexOf;
  }

  /** The j-th number that a chapter lists leads to the section with the j-th of its titles. */
  lemma ChapterListsSections(articles: seq<Article>, i: nat, j: nat)
    requires i < |StructureOf(articles).chapters| && j < |StructureOf(articles).chapters[i].sections|
    ensures var st := StructureOf(articles); var n := st.chapters[i];
      && j < |Pick(articles, SectionsOf(n.title))|
      && FindSection(st.sections, n.sections[j]).Some?
      && FindSection(st.sections, n.sections[j]).value.title == Pick(articles, SectionsOf(n.title))[j]
  {
    var n := StructureOf(articles).chapters[i];
    var titles := Pick(articles, SectionsOf(n.title));
    hide Pick;
    hide ToDecimal;
    hide FindSection;
    hide IndexOf;
    assert titles[j] in titles;
    SectionsAreListed(articles, n.title);
    SectionNodeLists(articles, titles[j]);
  }

  // ---------------------------------------------------------------- divisions

  /** The titles of the divisions in the tree. */
  function DivisionTitles(articles: seq<Article>): (r: seq<string>)
    ensures |r| == |DivisionNodes(articles)|
    ensures forall i :: 0 <= i < |r| ==> r[i] == DivisionNodes(articles)[i].title
  {
    seq(|DivisionNodes(articles)|, i requires 0 <= i < |DivisionNodes(articles)| => DivisionNodes(articles)[i].title)
  }

  /** The given titles without the main provisions. */
  function WithoutMain(titles: seq<string>): seq<string> {
    if titles == [] then []
    else
      var front, last := WithoutMain(titles[..|titles| - 1]), titles[|titles| - 1];
      if last == "本則" then front else front + [last]
  }

  lemma {:induction false} OthersAreRest(titles: seq<string>)
    ensures Others(titles) == WithoutMain(titles)
  {
    if titles != [] { OthersAreRest(titles[..|titles| - 1]); }
  }

  /**
    An article without a division belongs to 本則. If there is such an article, or one of that division, it comes
    first; the other divisions follow in the order in which they occur.
  */
  lemma MainComesFirst(articles: seq<Article>)
    ensures var occurring := Pick(articles, Divisions);
      && DivisionTitles(articles) == (if "本則" in occurring then ["本則"] else []) + WithoutMain(occurring)
      && ("本則" in occurring <==> exists a :: a in articles && (a.division == "" || a.division == "本則"))
  {
    var occurring := Pick(articles, Divisions);
    OthersAreRest(occurring);
    PickHolds(articles, Divisions);
    hide Pick;
    if a :| a in articles && (a.division == "" || a.division == "本則") {
      var i :| 0 <= i < |articles| && articles[i] == a;
      assert Asked(Divisions, articles[i]) && Answer(Divisions, articles[i]) == "本則";
    }
    if "本則" in occurring {
      var i :| 0 <= i < |articles| && Asked(Divisions, articles[i]) && Answer(Divisions, articles[i]) == "本則";
      assert articles[i] in articles;
    }
    assert DivisionTitles(articles) == MainFirst(occurring);
  }
}
