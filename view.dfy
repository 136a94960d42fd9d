/** The page state the script keeps between user actions: the `allMaterials`
    cache, what the cards container shows, and the two statistics counters.
    `Load` is `loadMaterials` after its fetches have settled; `Filter` is
    `filterMaterials`; `RenderNews` is `loadNews` after its fetch. */
module View {
  import opened Materials
  import opened Cards
  import opened Counter

  /** What a fetch delivered: the parsed list, or the failure that was caught. */
  datatype FetchOutcome<T> = Fetched(items: seq<T>) | Failed(message: string)

  /** The message block the cards container shows instead of cards. */
  datatype Notice =
    | NoNotice                       // the container holds cards (possibly none yet)
    | NoMaterials                    // the server returned an empty list
    | NoMatches(sectionLabel: string) // the filter selected nothing
    | LoadError(message: string)     // a fetch failed; the retry buttons are shown

  class MaterialsView {
    var allMaterials: seq<Material>
    var cards: seq<Card>
    var notice: Notice
    const totalCounter: StatCounter
    const sectionsCounter: StatCounter

    /** The container holds either cards or one message, and the two counters
        are different elements. */
    ghost predicate Valid()
      reads this
    {
      totalCounter != sectionsCounter && (notice.NoNotice? || cards == [])
    }

    constructor ()
      ensures Valid() && fresh(totalCounter) && fresh(sectionsCounter)
      ensures allMaterials == [] && cards == [] && notice == NoNotice
      ensures totalCounter.value == 0 && sectionsCounter.value == 0
    {
      allMaterials := [];
      cards := [];
      notice := NoNotice;
      totalCounter := new StatCounter(0);
      sectionsCounter := new StatCounter(0);
    }

    /** Clears the container, appends one card per material in order, and
        animates the counters to the list's statistics. */
    method Show(ms: seq<Material>)
      requires Valid()
      modifies this`cards, this`notice, totalCounter, sectionsCounter
      ensures Valid()
      ensures cards == CardsFor(ms) && notice == NoNotice
      ensures totalCounter.value == |ms|
      ensures sectionsCounter.value == |DistinctSections(ms)|
    {
      cards := [];
      notice := NoNotice;
      for i := 0 to |ms|
        invariant |cards| == i
        invariant forall j :: 0 <= j < i ==> cards[j] == BuildCard(ms[j])
        invariant notice == NoNotice
      {
        cards := cards + [BuildCard(ms[i])];
      }
      var _ := totalCounter.AnimateTo(|ms|);
      var _ := sectionsCounter.AnimateTo(|DistinctSections(ms)|);
    }

    /** Handles the materials response: a failure shows the error block, an
        empty list the "no materials" block, and only a non-empty list replaces
        the cache and is rendered. */
    method Load(response: FetchOutcome<Material>)
      requires Valid()
      modifies this, totalCounter, sectionsCounter
      ensures Valid()
      ensures response.Failed? ==>
                allMaterials == old(allMaterials) && cards == [] && notice == LoadError(response.message)
      ensures response.Fetched? && response.items == [] ==>
                allMaterials == old(allMaterials) && cards == [] && notice == NoMaterials
      ensures response.Fetched? && response.items != [] ==>
                allMaterials == response.items && cards == CardsFor(response.items) && notice == NoNotice &&
                totalCounter.value == |response.items| &&
                sectionsCounter.value == |DistinctSections(response.items)|
      ensures (response.Failed? || response.items == []) ==>
                totalCounter.value == old(totalCounter.value) &&
                sectionsCounter.value == old(sectionsCounter.value)
    {
      match response
      case Failed(message) =>
        cards := [];
        notice := LoadError(message);
      case Fetched(items) =>
        cards := [];
        if items == [] {
          notice := NoMaterials;
          return;
        }
        allMaterials := items;
        Show(items);
    }

    /** Re-renders the cache restricted to a section ("all" keeps everything).
        With an empty cache nothing changes; the cache itself is never changed. */
    method Filter(filterValue: string)
      requires Valid()
      modifies this`cards, this`notice, totalCounter, sectionsCounter
      ensures Valid()
      ensures allMaterials == old(allMaterials)
      ensures old(allMaterials) == [] ==>
                cards == old(cards) && notice == old(notice) &&
                totalCounter.value == old(totalCounter.value) &&
                sectionsCounter.value == old(sectionsCounter.value)
      ensures allMaterials != [] && SelectSection(allMaterials, filterValue) == [] ==>
                cards == [] && notice == NoMatches(SectionName(filterValue)) &&
                totalCounter.value == old(totalCounter.value) &&
                sectionsCounter.value == old(sectionsCounter.value)
      ensures allMaterials != [] && SelectSection(allMaterials, filterValue) != [] ==>
                var selected := SelectSection(allMaterials, filterValue);
                cards == CardsFor(selected) && notice == NoNotice &&
                totalCounter.value == |selected| &&
                sectionsCounter.value == |DistinctSections(selected)|
    {
      if allMaterials == [] {
        return;
      }
      var selected := SelectSection(allMaterials, filterValue);
      if selected == [] {
        cards := [];
        notice := NoMatches(SectionName(filterValue));
        return;
      }
      Show(selected);
    }
  }

  /** What the news container shows. */
  datatype NewsPanel = NewsCards(cards: seq<NewsCard>) | NoNews | NewsError(message: string)

  function Min(a: int, b: int): int {
    if a <= b then a else b
  }

  /** Handles the news response: the first three items become cards, in order,
      each with its default texts filled in. */
  method RenderNews(response: FetchOutcome<NewsItem>) returns (panel: NewsPanel)
    ensures response.Failed? ==> panel == NewsError(response.message)
    ensures response.Fetched? && response.items == [] ==> panel == NoNews
    ensures response.Fetched? && response.items != [] ==>
              panel.NewsCards? &&
              |panel.cards| == Min(LatestNewsCount, |response.items|) &&
              forall i :: 0 <= i < |panel.cards| ==> panel.cards[i] == NewsCardOf(response.items[i])
  {
    match response
    case Failed(message) =>
      panel := NewsError(message);
    case Fetched(news) =>
      if news == [] {
        panel := NoNews;
        return;
      }
      var latest := news[..Min(LatestNewsCount, |news|)];
      var shown: seq<NewsCard> := [];
      for i := 0 to |latest|
        invariant |shown| == i
        invariant forall j :: 0 <= j < i ==> shown[j] == NewsCardOf(news[j])
      {
        shown := shown + [NewsCardOf(latest[i])];
      }
      panel := NewsCards(shown);
  }
}

/** A page session over one book: filtering to an empty section shows the
    "nothing in this section" block, and "all" brings the whole cache back. */
module ViewScenario {
  import opened Materials
  import opened Cards
  import opened View

  method FilterScenario() {
    var view := new MaterialsView();
    var m1 := Material("m1", "books", "T", "", "", "", "", "", "k1", "");
    view.Load(Fetched([m1]));
    assert view.allMaterials == [m1];
    view.Filter("lectures");
    assert view.cards == [] && view.notice == NoMatches(SectionName("lectures"));
    view.Filter(AllSections);
    assert |view.cards| == 1 && view.cards[0] == BuildCard(m1);
    assert view.cards[0].action == DownloadButton("m1", "T", DefaultFileName);
  }
}
