/** How the leaves of the table of contents divide the articles among themselves. */
module TocPartition {
  import opened Sequences
  import opened TableStructure

  /** A list of article numbers in the tree, by the title it hangs under. */
  datatype Leaf = InDivision(title: string) | InPart(title: string) | InChapter(title: string) | InSection(title: string)

  /** The leaf an article belongs to. */
  function LeafOf(a: Article): Leaf {
    if a.chapter != "" then
      if a.section != "" then InSection(a.section) else InChapter(a.chapter)
    else if a.part != "" then InPart(a.part)
    else InDivision(DivisionOf(a))
  }

  function LeafQuery(l: Leaf): Query {
    match l
    case InDivision(d) => ArticlesOfDivision(d)
    case InPart(p) => ArticlesOfPart(p)
    case InChapter(c) => ArticlesOfChapter(c)
    case InSection(s) => ArticlesOfSection(s)
  }

  lemma AskedIffLeaf(l: Leaf, a: Article)
    ensures Asked(LeafQuery(l), a) <==> LeafOf(a) == l
    ensures Answer(LeafQuery(l), a) == a.articleNumber
  {
  }

  type Group = (Leaf, seq<string>)
  type Entry = (Leaf, string)

  /** The lists of article numbers of a tree. */
  function Groups(st: Structure): seq<Group> {
    DivisionGroups(st.divisions) + PartGroups(st.parts) + ChapterGroups(st.chapters) + SectionGroups(st.sections)
  }

  function DivisionGroups(nodes: seq<DivisionNode>): (r: seq<Group>)
    ensures |r| == |nodes| && forall i :: 0 <= i < |r| ==> r[i] == (InDivision(nodes[i].title), nodes[i].articles)
  {
    seq(|nodes|, i requires 0 <= i < |nodes| => (InDivision(nodes[i].title), nodes[i].articles))
  }

  function PartGroups(nodes: seq<PartNode>): (r: seq<Group>)
    ensures |r| == |nodes| && forall i :: 0 <= i < |r| ==> r[i] == (InPart(nodes[i].title), nodes[i].articles)
  {
    seq(|nodes|, i requires 0 <= i < |nodes| => (InPart(nodes[i].title), nodes[i].articles))
  }

  function ChapterGroups(nodes: seq<ChapterNode>): (r: seq<Group>)
    ensures |r| == |nodes| && forall i :: 0 <= i < |r| ==> r[i] == (InChapter(nodes[i].title), nodes[i].articles)
  {
    seq(|nodes|, i requires 0 <= i < |nodes| => (InChapter(nodes[i].title), nodes[i].articles))
  }

  function SectionGroups(nodes: seq<SectionNode>): (r: seq<Group>)
    ensures |r| == |nodes| && forall i :: 0 <= i < |r| ==> r[i] == (InSection(nodes[i].title), nodes[i].articles)
  {
    seq(|nodes|, i requires 0 <= i < |nodes| => (InSection(nodes[i].title), nodes[i].articles))
  }

  function Tagged(l: Leaf, xs: seq<string>): (r: seq<Entry>)
    ensures |r| == |xs| && forall i :: 0 <= i < |r| ==> r[i] == (l, xs[i])
  {
    seq(|xs|, i requires 0 <= i < |xs| => (l, xs[i]))
  }

  /** Every place where an article number is listed. */
  function Listed(groups: seq<Group>): seq<Entry> {
    if groups == [] then []
    else Listed(groups[..|groups| - 1]) + Tagged(groups[|groups| - 1].0, groups[|groups| - 1].1)
  }

  /** The sizes of all leaves, added up. */
  function LeafCount(groups: seq<Group>): nat {
    if groups == [] then 0 else LeafCount(groups[..|groups| - 1]) + |groups[|groups| - 1].1|
  }

  function Entries(articles: seq<Article>): seq<Entry> {
    Listed(Groups(StructureOf(articles)))
  }

  // ---------------------------------------------------------------- the groups of a tree

  ghost predicate TagsDiffer(groups: seq<Group>) {
    forall i, j :: 0 <= i < j < |groups| ==> groups[i].0 != groups[j].0
  }

  ghost predicate HasEntry(groups: seq<Group>, e: Entry) {
    exists i :: 0 <= i < |groups| && InGroup(groups[i], e)
  }

  predicate InGroup(g: Group, e: Entry) {
    g.0 == e.0 && e.1 in g.1
  }

  lemma TaggedHas(g: Group, e: Entry)
    ensures e in Tagged(g.0, g.1) <==> InGroup(g, e)
  {
    if InGroup(g, e) {
      var k :| 0 <= k < |g.1| && g.1[k] == e.1;
      assert Tagged(g.0, g.1)[k] == e;
    }
  }

  lemma HasEntryAppend(groups: seq<Group>, g: Group, e: Entry)
    ensures HasEntry(groups + [g], e) <==> HasEntry(groups, e) || InGroup(g, e)
  {
    var all := groups + [g];
    hide InGroup;
    if HasEntry(groups, e) {
      var i :| 0 <= i < |groups| && InGroup(groups[i], e);
      assert all[i] == groups[i];
    }
    if InGroup(g, e) {
      assert InGroup(all[|groups|], e);
    }
  }

  lemma {:induction false} ListedHas(groups: seq<Group>, e: Entry)
    ensures e in Listed(groups) <==> HasEntry(groups, e)
  {
    if groups != [] {
      var n, front := |groups| - 1, groups[..|groups| - 1];
      ListedHas(front, e);
      TaggedHas(groups[n], e);
      assert groups == front + [groups[n]];
      HasEntryAppend(front, groups[n], e);
      hide HasEntry;
      hide InGroup;
    }
  }

  lemma {:induction false} ListedOnce(groups: seq<Group>)
    requires TagsDiffer(groups)
    requires forall i :: 0 <= i < |groups| ==> NoDuplicates(groups[i].1)
    ensures NoDuplicates(Listed(groups)) && |Listed(groups)| == LeafCount(groups)
  {
    if groups != [] {
      var n, front := |groups| - 1, groups[..|groups| - 1];
      ListedOnce(front);
      var last := Tagged(groups[n].0, groups[n].1);
      assert forall i :: 0 <= i < n ==> groups[i] == front[i];
      forall e | e in last ensures e !in Listed(front) {
        ListedHas(front, e);
      }
      assert NoDuplicates(last);
      Disjoint(Listed(front), last);
    }
  }

  lemma Disjoint(s: seq<Entry>, t: seq<Entry>)
    requires NoDuplicates(s) && NoDuplicates(t) && forall e :: e in t ==> e !in s
    ensures NoDuplicates(s + t)
  {
    forall i, j | 0 <= i < j < |s + t| ensures (s + t)[i] != (s + t)[j] {
      if i < |s| <= j {
        assert (s + t)[j] == t[j - |s|] && t[j - |s|] in t && s[i] in s;
      }
    }
  }

  lemma MainFirstDistinct(titles: seq<string>)
    requires NoDuplicates(titles)
    ensures NoDuplicates(MainFirst(titles))
  {
    OthersDistinct(titles);
  }

  lemma {:induction false} OthersDistinct(titles: seq<string>)
    requires NoDuplicates(titles)
    ensures NoDuplicates(Others(titles))
  {
    if titles != [] {
      OthersDistinct(titles[..|titles| - 1]);
      assert titles[|titles| - 1] !in titles[..|titles| - 1];
    }
  }

  /** The groups of the tree: one for each title, listing what the query for that leaf picks. */
  lemma GroupList(articles: seq<Article>, i: nat)
    requires i < |Groups(StructureOf(articles))|
    ensures var g := Groups(StructureOf(articles))[i]; g.1 == Pick(articles, LeafQuery(g.0))
  {
    hide Pick;
  }

  lemma TitlesDistinct(articles: seq<Article>)
    ensures NoDuplicates(MainFirst(Pick(articles, Divisions))) && NoDuplicates(Pick(articles, Parts))
    ensures NoDuplicates(Pick(articles, Chapters)) && NoDuplicates(Pick(articles, Sections))
  {
    PickHolds(articles, Divisions);
    PickHolds(articles, Parts);
    PickHolds(articles, Chapters);
    PickHolds(articles, Sections);
    MainFirstDistinct(Pick(articles, Divisions));
  }

  lemma GroupTags(articles: seq<Article>)
    ensures TagsDiffer(Groups(StructureOf(articles)))
  {
    TitlesDistinct(articles);
    hide Pick;
    hide MainFirst;
    var st := StructureOf(articles);
    assert TagsDiffer(DivisionGroups(st.divisions));
    assert TagsDiffer(PartGroups(st.parts));
    assert TagsDiffer(ChapterGroups(st.chapters));
    assert TagsDiffer(SectionGroups(st.sections));
  }

  lemma GroupExists(articles: seq<Article>, a: Article)
    requires a in articles
    ensures exists i :: 0 <= i < |Groups(StructureOf(articles))| && Groups(StructureOf(articles))[i].0 == LeafOf(a)
  {
    var st, groups := StructureOf(articles), Groups(StructureOf(articles));
    hide Pick;
    if a.chapter != "" {
      ChapterLists(articles, a);
      var titles := if a.section != "" then Pick(articles, Sections) else Pick(articles, Chapters);
      var title := if a.section != "" then a.section else a.chapter;
      var k :| 0 <= k < |titles| && titles[k] == title;
      var offset := |st.divisions| + |st.parts| + if a.section != "" then |st.chapters| else 0;
      assert groups[offset + k].0 == LeafOf(a);
    } else if a.part != "" {
      PartLists(articles, a);
      var k :| 0 <= k < |Pick(articles, Parts)| && Pick(articles, Parts)[k] == a.part;
      assert groups[|st.divisions| + k].0 == LeafOf(a);
    } else {
      DivisionLists(articles, a);
      var titles := MainFirst(Pick(articles, Divisions));
      assert DivisionOf(a) in titles;
      var k :| 0 <= k < |titles| && titles[k] == DivisionOf(a);
      assert groups[k].0 == LeafOf(a);
    }
  }

  function PairOf(a: Article): Entry {
    (LeafOf(a), a.articleNumber)
  }

  function Pairs(articles: seq<Article>): (r: seq<Entry>)
    ensures |r| == |articles| && forall i :: 0 <= i < |r| ==> r[i] == PairOf(articles[i])
  {
    seq(|articles|, i requires 0 <= i < |articles| => PairOf(articles[i]))
  }

  lemma PickIsLeaf(articles: seq<Article>, l: Leaf, x: string)
    ensures x in Pick(articles, LeafQuery(l)) <==> (l, x) in Pairs(articles)
  {
    PickHolds(articles, LeafQuery(l));
    hide Pick;
    hide LeafOf;
    if x in Pick(articles, LeafQuery(l)) {
      var i :| 0 <= i < |articles| && Asked(LeafQuery(l), articles[i]) && Answer(LeafQuery(l), articles[i]) == x;
      AskedIffLeaf(l, articles[i]);
      assert Pairs(articles)[i] == (l, x);
    }
    if (l, x) in Pairs(articles) {
      var i :| 0 <= i < |articles| && Pairs(articles)[i] == (l, x);
      AskedIffLeaf(l, articles[i]);
    }
  }

  /** An article number is listed in a leaf exactly when some article with that number belongs there. */
  lemma EntryIffArticle(articles: seq<Article>, e: Entry)
    ensures e in Entries(articles) <==> e in Pairs(articles)
  {
    var groups := Groups(StructureOf(articles));
    ListedHas(groups, e);
    PickIsLeaf(articles, e.0, e.1);
    if HasEntry(groups, e) {
      var i :| 0 <= i < |groups| && InGroup(groups[i], e);
      GroupList(articles, i);
    }
    if e in Pairs(articles) {
      var j :| 0 <= j < |articles| && Pairs(articles)[j] == e;
      GroupExists(articles, articles[j]);
      hide Groups;
      hide StructureOf;
      var i :| 0 <= i < |groups| && groups[i].0 == e.0;
      GroupList(articles, i);
      assert InGroup(groups[i], e);
    }
  }

  lemma EntriesOnce(articles: seq<Article>)
    ensures NoDuplicates(Entries(articles)) && |Entries(articles)| == LeafCount(Groups(StructureOf(articles)))
  {
    var groups := Groups(StructureOf(articles));
    GroupTags(articles);
    forall i | 0 <= i < |groups| ensures NoDuplicates(groups[i].1) {
      GroupList(articles, i);
      PickHolds(articles, LeafQuery(groups[i].0));
    }
    hide Groups;
    hide StructureOf;
    ListedOnce(groups);
  }

  /**
    The tree lists nothing twice in a leaf and nothing that is not in the law. Its leaves hold as many numbers
    as there are articles exactly when no two articles of one leaf share a number; otherwise they hold fewer.
  */
  lemma LeavesCountArticles(articles: seq<Article>)
    ensures LeafCount(Groups(StructureOf(articles))) <= |articles|
    ensures LeafCount(Groups(StructureOf(articles))) == |articles| <==> NoDuplicates(Pairs(articles))
  {
    EntriesOnce(articles);
    forall e ensures e in Entries(articles) <==> e in Pairs(articles) { EntryIffArticle(articles, e); }
    NoDuplicatesCardinality(Entries(articles));
    CardinalityIff(Pairs(articles));
    assert Elements(Entries(articles)) == Elements(Pairs(articles));
  }

  /** With unique article numbers every number is listed in exactly one leaf, once. */
  lemma TreePartitionsArticles(articles: seq<Article>, a: Article, l: Leaf)
    requires a in articles
    requires forall i, j :: 0 <= i < j < |articles| ==> articles[i].articleNumber != articles[j].articleNumber
    ensures NoDuplicates(Entries(articles))
    ensures (l, a.articleNumber) in Entries(articles) <==> l == LeafOf(a)
    ensures LeafCount(Groups(StructureOf(articles))) == |articles|
  {
    EntriesOnce(articles);
    LeavesCountArticles(articles);
    EntryIffArticle(articles, (l, a.articleNumber));
    hide Entries;
    hide Groups;
    hide StructureOf;
    var i :| 0 <= i < |articles| && articles[i] == a;
    assert Pairs(articles)[i] == PairOf(a);
    if (l, a.articleNumber) in Pairs(articles) {
      var j :| 0 <= j < |articles| && Pairs(articles)[j] == (l, a.articleNumber);
      assert articles[j].articleNumber == a.articleNumber;
    }
  }
}
