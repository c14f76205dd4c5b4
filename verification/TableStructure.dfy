/**
  The table of contents of a law (app/laws/[id]/page.tsx): divisions, parts, chapters and sections.

  `Pick` answers one question at a time over the whole list of articles; `Structure` is the tree those answers
  make. The source fills four nested maps in a single pass instead; see TableBuilder.
*/
module TableStructure {
  import opened Sequences
  import opened Decimals

  /** An absent title is the empty string. */
  datatype Article = Article(articleNumber: string, division: string, part: string, chapter: string, section: string)

  const MAIN_PROVISIONS := "本則"

  function DivisionOf(a: Article): string {
    if a.division == "" then MAIN_PROVISIONS else a.division
  }

  /** What can be asked of an article. */
  datatype Query =
    | Divisions | PartsOf(d: string) | ChaptersOfDivision(d: string) | ArticlesOfDivision(d: string)
    | Parts | ChaptersOfPart(p: string) | ArticlesOfPart(p: string)
    | Chapters | SectionsOf(c: string) | ArticlesOfChapter(c: string)
    | Sections | ArticlesOfSection(s: string)

  predicate Asked(q: Query, a: Article) {
    match q
    case Divisions => true
    case PartsOf(d) => DivisionOf(a) == d && a.part != ""
    case ChaptersOfDivision(d) => DivisionOf(a) == d && a.part == "" && a.chapter != ""
    case ArticlesOfDivision(d) => DivisionOf(a) == d && a.part == "" && a.chapter == ""
    case Parts => a.part != ""
    case ChaptersOfPart(p) => a.part != "" && a.part == p && a.chapter != ""
    case ArticlesOfPart(p) => a.part != "" && a.part == p && a.chapter == ""
    case Chapters => a.chapter != ""
    case SectionsOf(c) => a.chapter != "" && a.chapter == c && a.section != ""
    case ArticlesOfChapter(c) => a.chapter != "" && a.chapter == c && a.section == ""
    case Sections => a.chapter != "" && a.section != ""
    case ArticlesOfSection(s) => a.chapter != "" && a.section != "" && a.section == s
  }

  function Answer(q: Query, a: Article): string {
    match q
    case Divisions => DivisionOf(a)
    case PartsOf(_) | Parts => a.part
    case ChaptersOfDivision(_) | ChaptersOfPart(_) | Chapters => a.chapter
    case SectionsOf(_) | Sections => a.section
    case ArticlesOfDivision(_) | ArticlesOfPart(_) | ArticlesOfChapter(_) | ArticlesOfSection(_) => a.articleNumber
  }

  /** `Set.prototype.add`, on the elements in insertion order. */
  function Add(s: seq<string>, x: string): seq<string> {
    if x in s then s else s + [x]
  }

  /** The distinct answers over all articles, in order of first occurrence. */
  function Pick(articles: seq<Article>, q: Query): seq<string> {
    if articles == [] then []
    else
      var front, last := articles[..|articles| - 1], articles[|articles| - 1];
      if Asked(q, last) then Add(Pick(front, q), Answer(q, last)) else Pick(front, q)
  }

  datatype DivisionNode = DivisionNode(num: string, title: string, parts: seq<string>, chapters: seq<string>, articles: seq<string>)
  datatype PartNode = PartNode(num: string, title: string, chapters: seq<string>, articles: seq<string>)
  datatype ChapterNode = ChapterNode(num: string, title: string, sections: seq<string>, articles: seq<string>)
  datatype SectionNode = SectionNode(num: string, title: string, articles: seq<string>)

  datatype Structure = Structure(
    divisions: seq<DivisionNode>, parts: seq<PartNode>, chapters: seq<ChapterNode>, sections: seq<SectionNode>)

  /** The main provisions come first, then the others as they occur. */
  function MainFirst(titles: seq<string>): seq<string> {
    (if MAIN_PROVISIONS in titles then [MAIN_PROVISIONS] else []) + Others(titles)
  }

  function Others(titles: seq<string>): (r: seq<string>)
    ensures forall t :: t in r <==> t in titles && t != MAIN_PROVISIONS
  {
    if titles == [] then []
    else
      var front, last := titles[..|titles| - 1], titles[|titles| - 1];
      assert forall t :: t in titles <==> t in front || t == last;
      if last != MAIN_PROVISIONS then Others(front) + [last] else Others(front)
  }

  function DivisionFor(articles: seq<Article>, n: nat, t: string): DivisionNode {
    DivisionNode(ToDecimal(n), t, Pick(articles, PartsOf(t)), Pick(articles, ChaptersOfDivision(t)), Pick(articles, ArticlesOfDivision(t)))
  }

  function PartFor(articles: seq<Article>, n: nat, t: string): PartNode {
    PartNode(ToDecimal(n), t, Pick(articles, ChaptersOfPart(t)), Pick(articles, ArticlesOfPart(t)))
  }

  /** Sections are listed by their number in the list of all sections. */
  function SectionNumbers(all: seq<string>, titles: seq<string>): (r: seq<string>)
    ensures |r| == |titles|
    ensures forall i :: 0 <= i < |r| ==> r[i] == ToDecimal(IndexOf(all, titles[i]) + 1)
  {
    seq(|titles|, i requires 0 <= i < |titles| => ToDecimal(IndexOf(all, titles[i]) + 1))
  }

  function ChapterFor(articles: seq<Article>, n: nat, t: string): ChapterNode {
    ChapterNode(ToDecimal(n), t, SectionNumbers(Pick(articles, Sections), Pick(articles, SectionsOf(t))), Pick(articles, ArticlesOfChapter(t)))
  }

  function SectionFor(articles: seq<Article>, n: nat, t: string): SectionNode {
    SectionNode(ToDecimal(n), t, Pick(articles, ArticlesOfSection(t)))
  }

  function DivisionNodes(articles: seq<Article>): (r: seq<DivisionNode>)
    ensures var titles := MainFirst(Pick(articles, Divisions));
      |r| == |titles| && forall i :: 0 <= i < |r| ==> r[i] == DivisionFor(articles, i + 1, titles[i])
  {
    var titles := MainFirst(Pick(articles, Divisions));
    seq(|titles|, i requires 0 <= i < |titles| => DivisionFor(articles, i + 1, titles[i]))
  }

  function PartNodes(articles: seq<Article>): (r: seq<PartNode>)
    ensures var titles := Pick(articles, Parts);
      |r| == |titles| && forall i :: 0 <= i < |r| ==> r[i] == PartFor(articles, i + 1, titles[i])
  {
    var titles := Pick(articles, Parts);
    seq(|titles|, i requires 0 <= i < |titles| => PartFor(articles, i + 1, titles[i]))
  }

  function ChapterNodes(articles: seq<Article>): (r: seq<ChapterNode>)
    ensures var titles := Pick(articles, Chapters);
      |r| == |titles| && forall i :: 0 <= i < |r| ==> r[i] == ChapterFor(articles, i + 1, titles[i])
  {
    var titles := Pick(articles, Chapters);
    seq(|titles|, i requires 0 <= i < |titles| => ChapterFor(articles, i + 1, titles[i]))
  }

  function SectionNodes(articles: seq<Article>): (r: seq<SectionNode>)
    ensures var titles := Pick(articles, Sections);
      |r| == |titles| && forall i :: 0 <= i < |r| ==> r[i] == SectionFor(articles, i + 1, titles[i])
  {
    var titles := Pick(articles, Sections);
    seq(|titles|, i requires 0 <= i < |titles| => SectionFor(articles, i + 1, titles[i]))
  }

  function StructureOf(articles: seq<Article>): Structure {
    Structure(DivisionNodes(articles), PartNodes(articles), ChapterNodes(articles), SectionNodes(articles))
  }

  // ---------------------------------------------------------------- properties of Pick

  /** Each answer is listed once, and only answers are listed. */
  lemma {:induction false} PickHolds(articles: seq<Article>, q: Query)
    ensures NoDuplicates(Pick(articles, q))
    ensures forall x :: x in Pick(articles, q) <==> exists i :: 0 <= i < |articles| && Asked(q, articles[i]) && Answer(q, articles[i]) == x
  {
    if articles != [] {
      var n, front := |articles| - 1, articles[..|articles| - 1];
      PickHolds(front, q);
      hide Asked;
      hide Answer;
      forall x ensures x in Pick(articles, q) <==> exists i :: 0 <= i < |articles| && Asked(q, articles[i]) && Answer(q, articles[i]) == x {
        if x in Pick(front, q) {
          var i :| 0 <= i < |front| && Asked(q, front[i]) && Answer(q, front[i]) == x;
          assert articles[i] == front[i];
        }
        if i :| 0 <= i < |articles| && Asked(q, articles[i]) && Answer(q, articles[i]) == x {
          if i < n { assert front[i] == articles[i]; }
        }
      }
    }
  }

  lemma PickAsked(articles: seq<Article>, q: Query, a: Article)
    requires a in articles && Asked(q, a)
    ensures Answer(q, a) in Pick(articles, q)
  {
    PickHolds(articles, q);
    hide Asked;
    hide Answer;
    hide Pick;
  }

  /** Where the titles and the number of an article are listed. */
  lemma DivisionLists(articles: seq<Article>, a: Article)
    requires a in articles
    ensures DivisionOf(a) in Pick(articles, Divisions)
    ensures a.part != "" ==> a.part in Pick(articles, PartsOf(DivisionOf(a)))
    ensures a.part == "" && a.chapter != "" ==> a.chapter in Pick(articles, ChaptersOfDivision(DivisionOf(a)))
    ensures a.part == "" && a.chapter == "" ==> a.articleNumber in Pick(articles, ArticlesOfDivision(DivisionOf(a)))
  {
    PickAsked(articles, Divisions, a);
    if a.part != "" { PickAsked(articles, PartsOf(DivisionOf(a)), a); }
    else if a.chapter != "" { PickAsked(articles, ChaptersOfDivision(DivisionOf(a)), a); }
    else { PickAsked(articles, ArticlesOfDivision(DivisionOf(a)), a); }
    hide Pick;
  }

  lemma PartLists(articles: seq<Article>, a: Article)
    requires a in articles && a.part != ""
    ensures a.part in Pick(articles, Parts)
    ensures a.chapter != "" ==> a.chapter in Pick(articles, ChaptersOfPart(a.part))
    ensures a.chapter == "" ==> a.articleNumber in Pick(articles, ArticlesOfPart(a.part))
  {
    PickAsked(articles, Parts, a);
    if a.chapter != "" { PickAsked(articles, ChaptersOfPart(a.part), a); }
    else { PickAsked(articles, ArticlesOfPart(a.part), a); }
    hide Pick;
  }

  lemma ChapterLists(articles: seq<Article>, a: Article)
    requires a in articles && a.chapter != ""
    ensures a.chapter in Pick(articles, Chapters)
    ensures a.section == "" ==> a.articleNumber in Pick(articles, ArticlesOfChapter(a.chapter))
    ensures a.section != "" ==> a.section in Pick(articles, SectionsOf(a.chapter)) && a.section in Pick(articles, Sections)
    ensures a.section != "" ==> a.articleNumber in Pick(articles, ArticlesOfSection(a.section))
  {
    PickAsked(articles, Chapters, a);
    if a.section == "" { PickAsked(articles, ArticlesOfChapter(a.chapter), a); }
    else {
      PickAsked(articles, SectionsOf(a.chapter), a);
      PickAsked(articles, Sections, a);
      PickAsked(articles, ArticlesOfSection(a.section), a);
    }
    hide Pick;
  }

  lemma {:induction false} PickAppend(articles: seq<Article>, a: Article, q: Query)
    ensures Pick(articles + [a], q) == if Asked(q, a) then Add(Pick(articles, q), Answer(q, a)) else Pick(articles, q)
  {
    assert (articles + [a])[..|articles|] == articles;
  }

  lemma SectionsAreListed(articles: seq<Article>, c: string)
    ensures forall s :: s in Pick(articles, SectionsOf(c)) ==> s in Pick(articles, Sections)
  {
    PickHolds(articles, SectionsOf(c));
    PickHolds(articles, Sections);
    hide Pick;
    forall s | s in Pick(articles, SectionsOf(c)) ensures s in Pick(articles, Sections) {
      var i :| 0 <= i < |articles| && Asked(SectionsOf(c), articles[i]) && Answer(SectionsOf(c), articles[i]) == s;
      assert Asked(Sections, articles[i]) && Answer(Sections, articles[i]) == s;
    }
  }
}
