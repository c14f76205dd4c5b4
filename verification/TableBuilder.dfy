/** `buildStructure` as the source runs it: four maps filled in one pass, then turned into numbered nodes. */
module TableBuilder {
  import opened Sequences
  import opened OrderedMaps
  import opened Decimals
  import opened TableStructure

  datatype DivisionSets = DivisionSets(parts: seq<string>, chapters: seq<string>, articles: seq<string>)
  datatype PartSets = PartSets(chapters: seq<string>, articles: seq<string>)
  datatype ChapterSets = ChapterSets(sections: seq<string>, articles: seq<string>)

  type DivisionMap = OrderedMap<string, DivisionSets>
  type PartMap = OrderedMap<string, PartSets>
  type ChapterMap = OrderedMap<string, ChapterSets>
  type SectionMap = OrderedMap<string, seq<string>>

  // ---------------------------------------------------------------- what the maps hold after the articles seen

  function DivisionAnswers(seen: seq<Article>, t: string): DivisionSets {
    DivisionSets(Pick(seen, PartsOf(t)), Pick(seen, ChaptersOfDivision(t)), Pick(seen, ArticlesOfDivision(t)))
  }

  function PartAnswers(seen: seq<Article>, t: string): PartSets {
    PartSets(Pick(seen, ChaptersOfPart(t)), Pick(seen, ArticlesOfPart(t)))
  }

  function ChapterAnswers(seen: seq<Article>, t: string): ChapterSets {
    ChapterSets(Pick(seen, SectionsOf(t)), Pick(seen, ArticlesOfChapter(t)))
  }

  ghost predicate DivisionsTracked(m: DivisionMap, seen: seq<Article>) {
    && m.Valid() && m.keys == Pick(seen, Divisions)
    && forall t :: t in m.vals ==> m.vals[t] == DivisionAnswers(seen, t)
  }

  ghost predicate PartsTracked(m: PartMap, seen: seq<Article>) {
    && m.Valid() && m.keys == Pick(seen, Parts)
    && forall t :: t in m.vals ==> m.vals[t] == PartAnswers(seen, t)
  }

  ghost predicate ChaptersTracked(m: ChapterMap, seen: seq<Article>) {
    && m.Valid() && m.keys == Pick(seen, Chapters)
    && forall t :: t in m.vals ==> m.vals[t] == ChapterAnswers(seen, t)
  }

  ghost predicate SectionsTracked(m: SectionMap, seen: seq<Article>) {
    && m.Valid() && m.keys == Pick(seen, Sections)
    && forall t :: t in m.vals ==> m.vals[t] == Pick(seen, ArticlesOfSection(t))
  }

  /** A query that is asked only of articles listed under t picks nothing while t is not listed. */
  lemma {:induction false} UnlistedPicksNothing(seen: seq<Article>, titles: Query, q: Query, t: string)
    requires t !in Pick(seen, titles)
    requires forall a :: Asked(q, a) ==> Asked(titles, a) && Answer(titles, a) == t
    ensures Pick(seen, q) == []
  {
    if seen != [] {
      UnlistedPicksNothing(seen[..|seen| - 1], titles, q, t);
    }
  }

  /** The sets of a map, or new ones. */
  function Lookup<V>(m: OrderedMap<string, V>, t: string, none: V): V {
    if t in m.vals then m.vals[t] else none
  }

  // ---------------------------------------------------------------- one article

  function AddToDivision(v: DivisionSets, a: Article): DivisionSets {
    if a.part != "" then DivisionSets(Add(v.parts, a.part), v.chapters, v.articles)
    else if a.chapter != "" then DivisionSets(v.parts, Add(v.chapters, a.chapter), v.articles)
    else DivisionSets(v.parts, v.chapters, Add(v.articles, a.articleNumber))
  }

  function AddToPart(v: PartSets, a: Article): PartSets {
    if a.chapter != "" then PartSets(Add(v.chapters, a.chapter), v.articles)
    else PartSets(v.chapters, Add(v.articles, a.articleNumber))
  }

  function AddToChapter(v: ChapterSets, a: Article): ChapterSets {
    if a.section != "" then ChapterSets(Add(v.sections, a.section), v.articles)
    else ChapterSets(v.sections, Add(v.articles, a.articleNumber))
  }

  lemma DivisionStep(m: DivisionMap, seen: seq<Article>, a: Article)
    requires DivisionsTracked(m, seen)
    ensures var d := DivisionOf(a);
      DivisionsTracked(m.Set(d, AddToDivision(Lookup(m, d, DivisionSets([], [], [])), a)), seen + [a])
  {
    var d := DivisionOf(a);
    PickAppend(seen, a, Divisions);
    if d !in m.vals {
      UnlistedPicksNothing(seen, Divisions, PartsOf(d), d);
      UnlistedPicksNothing(seen, Divisions, ChaptersOfDivision(d), d);
      UnlistedPicksNothing(seen, Divisions, ArticlesOfDivision(d), d);
    }
    assert Lookup(m, d, DivisionSets([], [], [])) == DivisionAnswers(seen, d);
    forall t ensures DivisionAnswers(seen + [a], t) == if t == d then AddToDivision(DivisionAnswers(seen, d), a) else DivisionAnswers(seen, t) {
      PickAppend(seen, a, PartsOf(t));
      PickAppend(seen, a, ChaptersOfDivision(t));
      PickAppend(seen, a, ArticlesOfDivision(t));
    }
    hide Pick;
    hide DivisionAnswers;
  }

  lemma PartStep(m: PartMap, seen: seq<Article>, a: Article)
    requires PartsTracked(m, seen)
    ensures a.part != "" ==> PartsTracked(m.Set(a.part, AddToPart(Lookup(m, a.part, PartSets([], [])), a)), seen + [a])
    ensures a.part == "" ==> PartsTracked(m, seen + [a])
  {
    var p := a.part;
    PickAppend(seen, a, Parts);
    if p !in m.vals {
      UnlistedPicksNothing(seen, Parts, ChaptersOfPart(p), p);
      UnlistedPicksNothing(seen, Parts, ArticlesOfPart(p), p);
    }
    assert Lookup(m, p, PartSets([], [])) == PartAnswers(seen, p);
    forall t ensures PartAnswers(seen + [a], t) == if p != "" && t == p then AddToPart(PartAnswers(seen, p), a) else PartAnswers(seen, t) {
      PickAppend(seen, a, ChaptersOfPart(t));
      PickAppend(seen, a, ArticlesOfPart(t));
    }
    hide Pick;
    hide PartAnswers;
  }

  lemma ChapterStep(m: ChapterMap, seen: seq<Article>, a: Article)
    requires ChaptersTracked(m, seen)
    ensures a.chapter != "" ==>
      ChaptersTracked(m.Set(a.chapter, AddToChapter(Lookup(m, a.chapter, ChapterSets([], [])), a)), seen + [a])
    ensures a.chapter == "" ==> ChaptersTracked(m, seen + [a])
  {
    var c := a.chapter;
    PickAppend(seen, a, Chapters);
    if c !in m.vals {
      UnlistedPicksNothing(seen, Chapters, SectionsOf(c), c);
      UnlistedPicksNothing(seen, Chapters, ArticlesOfChapter(c), c);
    }
    assert Lookup(m, c, ChapterSets([], [])) == ChapterAnswers(seen, c);
    forall t ensures ChapterAnswers(seen + [a], t) == if c != "" && t == c then AddToChapter(ChapterAnswers(seen, c), a) else ChapterAnswers(seen, t) {
      PickAppend(seen, a, SectionsOf(t));
      PickAppend(seen, a, ArticlesOfChapter(t));
    }
    hide Pick;
    hide ChapterAnswers;
  }

  lemma SectionStep(m: SectionMap, seen: seq<Article>, a: Article)
    requires SectionsTracked(m, seen)
    ensures a.chapter != "" && a.section != "" ==>
      SectionsTracked(m.Set(a.section, Add(Lookup(m, a.section, []), a.articleNumber)), seen + [a])
    ensures a.chapter == "" || a.section == "" ==> SectionsTracked(m, seen + [a])
  {
    var s := a.section;
    PickAppend(seen, a, Sections);
    if s !in m.vals {
      UnlistedPicksNothing(seen, Sections, ArticlesOfSection(s), s);
    }
    assert Lookup(m, s, []) == Pick(seen, ArticlesOfSection(s));
    forall t ensures Pick(seen + [a], ArticlesOfSection(t)) ==
      if a.chapter != "" && s != "" && t == s then Add(Pick(seen, ArticlesOfSection(t)), a.articleNumber) else Pick(seen, ArticlesOfSection(t))
    {
      PickAppend(seen, a, ArticlesOfSection(t));
    }
    hide Pick;
  }

  /** Making room for a key first does not change where it ends up. */
  lemma SetTwice<V(!new)>(m: OrderedMap<string, V>, k: string, v: V, w: V)
    ensures m.Set(k, v).Set(k, w) == m.Set(k, w)
  {
    assert m.vals[k := v][k := w] == m.vals[k := w];
  }

  method NoteDivision(divisions: DivisionMap, ghost seen: seq<Article>, article: Article) returns (divisionsMap: DivisionMap)
    requires DivisionsTracked(divisions, seen)
    ensures DivisionsTracked(divisionsMap, seen + [article])
  {
    DivisionStep(divisions, seen, article);
    hide DivisionsTracked;
    hide Add;
    var division := if article.division == "" then MAIN_PROVISIONS else article.division;
    divisionsMap := divisions;
    if division !in divisionsMap.vals {
      divisionsMap := divisionsMap.Set(division, DivisionSets([], [], []));
    }
    var data := divisionsMap.vals[division];
    if article.part != "" {
      data := DivisionSets(Add(data.parts, article.part), data.chapters, data.articles);
    } else if article.chapter != "" {
      data := DivisionSets(data.parts, Add(data.chapters, article.chapter), data.articles);
    } else {
      data := DivisionSets(data.parts, data.chapters, Add(data.articles, article.articleNumber));
    }
    divisionsMap := divisionsMap.Set(division, data);
    SetTwice(divisions, division, DivisionSets([], [], []), data);
  }

  method NotePart(parts: PartMap, ghost seen: seq<Article>, article: Article) returns (partsMap: PartMap)
    requires PartsTracked(parts, seen)
    ensures PartsTracked(partsMap, seen + [article])
  {
    PartStep(parts, seen, article);
    hide PartsTracked;
    hide Add;
    partsMap := parts;
    if article.part != "" {
      if article.part !in partsMap.vals {
        partsMap := partsMap.Set(article.part, PartSets([], []));
      }
      var data := partsMap.vals[article.part];
      if article.chapter != "" {
        data := PartSets(Add(data.chapters, article.chapter), data.articles);
      } else {
        data := PartSets(data.chapters, Add(data.articles, article.articleNumber));
      }
      partsMap := partsMap.Set(article.part, data);
      SetTwice(parts, article.part, PartSets([], []), data);
    }
  }

  method NoteChapter(chapters: ChapterMap, ghost seen: seq<Article>, article: Article) returns (chaptersMap: ChapterMap)
    requires ChaptersTracked(chapters, seen)
    ensures ChaptersTracked(chaptersMap, seen + [article])
  {
    ChapterStep(chapters, seen, article);
    hide ChaptersTracked;
    hide Add;
    chaptersMap := chapters;
    if article.chapter != "" {
      if article.chapter !in chaptersMap.vals {
        chaptersMap := chaptersMap.Set(article.chapter, ChapterSets([], []));
      }
      var data := chaptersMap.vals[article.chapter];
      if article.section != "" {
        data := ChapterSets(Add(data.sections, article.section), data.articles);
      } else {
        data := ChapterSets(data.sections, Add(data.articles, article.articleNumber));
      }
      chaptersMap := chaptersMap.Set(article.chapter, data);
      SetTwice(chapters, article.chapter, ChapterSets([], []), data);
    }
  }

  method NoteSection(sections: SectionMap, ghost seen: seq<Article>, article: Article) returns (sectionsMap: SectionMap)
    requires SectionsTracked(sections, seen)
    ensures SectionsTracked(sectionsMap, seen + [article])
  {
    SectionStep(sections, seen, article);
    hide SectionsTracked;
    hide Add;
    sectionsMap := sections;
    if article.chapter != "" && article.section != "" {
      if article.section !in sectionsMap.vals {
        sectionsMap := sectionsMap.Set(article.section, []);
      }
      var data := Add(sectionsMap.vals[article.section], article.articleNumber);
      sectionsMap := sectionsMap.Set(article.section, data);
      SetTwice(sections, article.section, [], data);
    }
  }

  // ---------------------------------------------------------------- nodes with running numbers

  lemma {:induction false} OthersAppend(titles: seq<string>, t: string)
    ensures Others(titles + [t]) == if t != MAIN_PROVISIONS then Others(titles) + [t] else Others(titles)
  {
    assert (titles + [t])[..|titles|] == titles;
  }

  /** The nodes pushed so far are those of the titles done so far, numbered from 1. */
  ghost predicate DivisionsPushed(articles: seq<Article>, done: seq<string>, nodes: seq<DivisionNode>) {
    |nodes| == |done| && forall k :: 0 <= k < |nodes| ==> nodes[k] == DivisionFor(articles, k + 1, done[k])
  }

  lemma PushOne(articles: seq<Article>, done: seq<string>, nodes: seq<DivisionNode>, t: string)
    requires DivisionsPushed(articles, done, nodes)
    ensures DivisionsPushed(articles, done + [t], nodes + [DivisionFor(articles, |nodes| + 1, t)])
  {
    hide DivisionFor;
  }

  lemma AllPushed(articles: seq<Article>, nodes: seq<DivisionNode>)
    ensures DivisionsPushed(articles, MainFirst(Pick(articles, Divisions)), nodes) ==> nodes == DivisionNodes(articles)
  {
    hide Pick;
    hide MainFirst;
    hide DivisionFor;
  }

  method NumberedDivision(divisionsMap: DivisionMap, divNum: nat, divisionTitle: string, ghost articles: seq<Article>)
    returns (node: DivisionNode)
    requires DivisionsTracked(divisionsMap, articles) && divisionTitle in divisionsMap.keys
    ensures node == DivisionFor(articles, divNum, divisionTitle)
  {
    var data := divisionsMap.vals[divisionTitle];
    node := DivisionNode(ToDecimal(divNum), divisionTitle, data.parts, data.chapters, data.articles);
  }

  /** The titles whose nodes are pushed when the second loop has seen the first i of them. */
  ghost function DoneTitles(titles: seq<string>, i: nat): seq<string>
    requires i <= |titles|
  {
    (if MAIN_PROVISIONS in titles then [MAIN_PROVISIONS] else []) + Others(titles[..i])
  }

  lemma DoneStarts(titles: seq<string>)
    ensures DoneTitles(titles, 0) == if MAIN_PROVISIONS in titles then [MAIN_PROVISIONS] else []
    ensures DoneTitles(titles, |titles|) == MainFirst(titles)
  {
    assert titles[..|titles|] == titles;
  }

  lemma DoneStep(titles: seq<string>, i: nat)
    requires i < |titles|
    ensures DoneTitles(titles, i + 1) ==
      if titles[i] != MAIN_PROVISIONS then DoneTitles(titles, i) + [titles[i]] else DoneTitles(titles, i)
  {
    assert titles[..i + 1] == titles[..i] + [titles[i]];
    OthersAppend(titles[..i], titles[i]);
    hide Others;
  }

  lemma NothingPushed(articles: seq<Article>, t: string)
    ensures DivisionsPushed(articles, [], []) && DivisionsPushed(articles, [t], [DivisionFor(articles, 1, t)])
  {
    hide DivisionFor;
  }

  method PushDivisions(divisionsMap: DivisionMap, ghost articles: seq<Article>) returns (nodes: seq<DivisionNode>)
    requires DivisionsTracked(divisionsMap, articles)
    ensures nodes == DivisionNodes(articles)
  {
    DoneStarts(divisionsMap.keys);
    NothingPushed(articles, MAIN_PROVISIONS);
    nodes := [];
    if MAIN_PROVISIONS in divisionsMap.vals {
      var node := NumberedDivision(divisionsMap, 1, MAIN_PROVISIONS, articles);
      nodes := [node];
    }
    nodes := PushOtherDivisions(divisionsMap, nodes, articles);
    AllPushed(articles, nodes);
  }

  /** The divisions other than the main provisions, numbered on. */
  method PushOtherDivisions(divisionsMap: DivisionMap, main: seq<DivisionNode>, ghost articles: seq<Article>)
    returns (nodes: seq<DivisionNode>)
    requires DivisionsTracked(divisionsMap, articles)
    requires DivisionsPushed(articles, DoneTitles(divisionsMap.keys, 0), main)
    ensures DivisionsPushed(articles, MainFirst(divisionsMap.keys), nodes)
  {
    hide *;
    var titles := divisionsMap.keys;
    DoneStarts(titles);
    nodes := main;
    var divNum := |nodes| + 1;
    for i := 0 to |titles|
      invariant divNum == |nodes| + 1 && DivisionsPushed(articles, DoneTitles(titles, i), nodes)
    {
      var divisionTitle := titles[i];
      DoneStep(titles, i);
      if divisionTitle != MAIN_PROVISIONS {
        var node := NumberedDivision(divisionsMap, divNum, divisionTitle, articles);
        PushOne(articles, DoneTitles(titles, i), nodes, divisionTitle);
        nodes := nodes + [node];
        divNum := divNum + 1;
      }
    }
  }

  method PushParts(partsMap: PartMap, ghost articles: seq<Article>) returns (nodes: seq<PartNode>)
    requires PartsTracked(partsMap, articles)
    ensures nodes == PartNodes(articles)
  {
    hide Pick;
    hide ToDecimal;
    nodes := [];
    var partNum := 1;
    for i := 0 to |partsMap.keys|
      invariant partNum == i + 1 && |nodes| == i
      invariant forall k :: 0 <= k < i ==> nodes[k] == PartFor(articles, k + 1, partsMap.keys[k])
    {
      var partTitle := partsMap.keys[i];
      var data := partsMap.vals[partTitle];
      nodes := nodes + [PartNode(ToDecimal(partNum), partTitle, data.chapters, data.articles)];
      partNum := partNum + 1;
    }
  }

  /** The inner search for the number of a section title, over the keys of the section map. */
  method SectionNumber(titles: seq<string>, sectionTitle: string) returns (sNum: nat)
    requires sectionTitle in titles
    ensures sNum == IndexOf(titles, sectionTitle) + 1
  {
    sNum := 1;
    for i := 0 to |titles|
      invariant sNum == i + 1 && sectionTitle !in titles[..i]
    {
      if titles[i] == sectionTitle {
        FirstIndex(titles, sectionTitle, i);
        return;
      }
      sNum := sNum + 1;
    }
  }

  lemma FirstIndex(titles: seq<string>, title: string, i: nat)
    requires i < |titles| && titles[i] == title && title !in titles[..i]
    ensures IndexOf(titles, title) == i
  {
    var j := IndexOf(titles, title);
    assert forall k :: 0 <= k < j ==> titles[..j][k] == titles[k];
    assert forall k :: 0 <= k < i ==> titles[..i][k] == titles[k];
  }

  method SectionNums(titles: seq<string>, sectionTitles: seq<string>) returns (sectionNums: seq<string>)
    requires forall s :: s in sectionTitles ==> s in titles
    ensures sectionNums == SectionNumbers(titles, sectionTitles)
  {
    hide ToDecimal;
    hide IndexOf;
    sectionNums := [];
    for j := 0 to |sectionTitles|
      invariant |sectionNums| == j
      invariant forall k :: 0 <= k < j ==> sectionNums[k] == ToDecimal(IndexOf(titles, sectionTitles[k]) + 1)
    {
      var sNum := SectionNumber(titles, sectionTitles[j]);
      sectionNums := sectionNums + [ToDecimal(sNum)];
    }
  }

  method PushChapters(chaptersMap: ChapterMap, sectionsMap: SectionMap, ghost articles: seq<Article>) returns (nodes: seq<ChapterNode>)
    requires ChaptersTracked(chaptersMap, articles) && SectionsTracked(sectionsMap, articles)
    ensures nodes == ChapterNodes(articles)
  {
    hide Pick;
    hide ToDecimal;
    hide SectionNumbers;
    nodes := [];
    var chapterNum := 1;
    for i := 0 to |chaptersMap.keys|
      invariant chapterNum == i + 1 && |nodes| == i
      invariant forall k :: 0 <= k < i ==> nodes[k] == ChapterFor(articles, k + 1, chaptersMap.keys[k])
    {
      var chapterTitle := chaptersMap.keys[i];
      var data := chaptersMap.vals[chapterTitle];
      SectionsAreListed(articles, chapterTitle);
      var sectionNums := SectionNums(sectionsMap.keys, data.sections);
      nodes := nodes + [ChapterNode(ToDecimal(chapterNum), chapterTitle, sectionNums, data.articles)];
      chapterNum := chapterNum + 1;
    }
  }

  method PushSections(sectionsMap: SectionMap, ghost articles: seq<Article>) returns (nodes: seq<SectionNode>)
    requires SectionsTracked(sectionsMap, articles)
    ensures nodes == SectionNodes(articles)
  {
    hide Pick;
    hide ToDecimal;
    nodes := [];
    var sectionNum := 1;
    for i := 0 to |sectionsMap.keys|
      invariant sectionNum == i + 1 && |nodes| == i
      invariant forall k :: 0 <= k < i ==> nodes[k] == SectionFor(articles, k + 1, sectionsMap.keys[k])
    {
      var sectionTitle := sectionsMap.keys[i];
      nodes := nodes + [SectionNode(ToDecimal(sectionNum), sectionTitle, sectionsMap.vals[sectionTitle])];
      sectionNum := sectionNum + 1;
    }
  }

  /** The single pass builds exactly the tree of the questions. */
  method BuildStructure(articles: seq<Article>) returns (structure: Structure)
    ensures structure == StructureOf(articles)
  {
    var divisionsMap: DivisionMap, partsMap: PartMap := Empty(), Empty();
    var chaptersMap: ChapterMap, sectionsMap: SectionMap := Empty(), Empty();
    for i := 0 to |articles|
      invariant DivisionsTracked(divisionsMap, articles[..i]) && PartsTracked(partsMap, articles[..i])
      invariant ChaptersTracked(chaptersMap, articles[..i]) && SectionsTracked(sectionsMap, articles[..i])
    {
      assert articles[..i + 1] == articles[..i] + [articles[i]];
      divisionsMap := NoteDivision(divisionsMap, articles[..i], articles[i]);
      partsMap := NotePart(partsMap, articles[..i], articles[i]);
      chaptersMap := NoteChapter(chaptersMap, articles[..i], articles[i]);
      sectionsMap := NoteSection(sectionsMap, articles[..i], articles[i]);
    }
    assert articles[..|articles|] == articles;
    var divisions := PushDivisions(divisionsMap, articles);
    var parts := PushParts(partsMap, articles);
    var chapters := PushChapters(chaptersMap, sectionsMap, articles);
    var sections := PushSections(sectionsMap, articles);
    structure := Structure(divisions, parts, chapters, sections);
  }
}
