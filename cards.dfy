/** What a material card and a news card show: the section label, the text
    fallbacks, the image address and whether the download control is enabled. */
module Cards {
  import opened Wrappers
  import opened Materials
  import opened Assets

  /** The display label of each known section code. */
  const SectionLabels: map<string, string> := map[
    "lectures" := "📖 Ma'ruzalar",
    "practicals" := "✏️ Amaliy mashg'ulotlar",
    "presentations" := "📊 Taqdimotlar",
    "books" := "📚 Qo'llanma va kitoblar"]

  /** The label of a section code; a code without a label is shown as it is. */
  function SectionName(code: string): (r: string)
    ensures code in SectionLabels ==> r == SectionLabels[code]
    ensures code !in SectionLabels ==> r == code
  {
    if code in SectionLabels then SectionLabels[code] else code
  }

  /** Distinct known codes get distinct labels. */
  lemma KnownLabelsDistinct(a: string, b: string)
    requires a in SectionLabels && b in SectionLabels && a != b
    ensures SectionName(a) != SectionName(b)
  {
  }

  /** The names an object literal inherits from `Object.prototype`; looking one
      of them up on the label table yields a function (or, for `__proto__`, an
      object) instead of `undefined`. */
  const ObjectPrototypeMembers: set<string> := {
    "constructor", "hasOwnProperty", "isPrototypeOf", "propertyIsEnumerable",
    "toLocaleString", "toString", "valueOf", "__proto__", "__defineGetter__",
    "__defineSetter__", "__lookupGetter__", "__lookupSetter__"}

  /** What the table lookup followed by `||` yields in the script as written:
      a label, an inherited member, or the code itself. */
  datatype LookupValue = Text(text: string) | InheritedMember(name: string)

  function SectionNameAsWritten(code: string): (r: LookupValue)
    ensures code !in ObjectPrototypeMembers ==> r == Text(SectionName(code))
    ensures code in ObjectPrototypeMembers ==> r == InheritedMember(code)
  {
    if code in SectionLabels then Text(SectionLabels[code])
    else if code in ObjectPrototypeMembers then InheritedMember(code)
    else Text(code)
  }

  /** The section code "toString" is not shown as itself: the lookup finds the
      inherited method, which is truthy, so `|| section` never applies. */
  lemma SectionNameAsWrittenDiverges()
    ensures SectionNameAsWritten("toString") != Text("toString")
    ensures SectionName("toString") == "toString"
  {
  }

  /** JavaScript's `a || b || … || fallback` over strings: the first non-empty
      candidate, else the fallback. */
  function FirstTruthy(candidates: seq<string>, fallback: string): (r: string)
    ensures (forall i :: 0 <= i < |candidates| ==> candidates[i] == "") ==> r == fallback
    ensures forall i :: (0 <= i < |candidates| && candidates[i] != "" &&
              (forall j :: 0 <= j < i ==> candidates[j] == "")) ==> r == candidates[i]
    ensures fallback != "" ==> r != ""
    decreases |candidates|
  {
    if candidates == [] then fallback
    else if candidates[0] != "" then candidates[0]
    else FirstTruthy(candidates[1..], fallback)
  }

  const DefaultTitle := "Material"
  const NoDescription := "Tavsif yo'q"
  const UnknownId := "unknown"
  const DefaultFileName := "file"

  /** The action area of a card: a download button bound to the arguments it
      passes to the download, or a disabled "no file" button. */
  datatype DownloadControl =
    | DownloadButton(materialId: string, title: string, fileName: string)
    | DisabledButton

  datatype Card = Card(
    imageUrl: Option<string>,   // None: the "no image" placeholder block
    title: string,
    description: string,
    sectionLabel: string,
    action: DownloadControl)

  /** The card both `loadMaterials` and `filterMaterials` build for a material. */
  function BuildCard(m: Material): (c: Card)
    ensures c.imageUrl == ResolveAssetUrl(m.imageUrl, m.imageKey)
    ensures c.title != "" && (m.title != "" ==> c.title == m.title)
    ensures m.title == "" ==> c.title == DefaultTitle
    ensures c.description != ""
    ensures m.description != "" ==> c.description == m.description
    ensures m.description == "" && m.desc != "" ==> c.description == m.desc
    ensures m.description == "" && m.desc == "" ==> c.description == NoDescription
    ensures c.sectionLabel == SectionName(m.section)
    ensures c.action.DownloadButton? <==> HasFileRef(m)
    ensures c.action.DownloadButton? ==>
              c.action.materialId != "" && (m.id != "" ==> c.action.materialId == m.id) &&
              (m.id == "" ==> c.action.materialId == UnknownId) &&
              c.action.title == m.title &&
              c.action.fileName != "" && (m.fileName != "" ==> c.action.fileName == m.fileName) &&
              (m.fileName == "" ==> c.action.fileName == DefaultFileName)
  {
    var descriptions := [m.description, m.desc];
    assert descriptions[0] == m.description && descriptions[1] == m.desc;
    Card(
      ResolveAssetUrl(m.imageUrl, m.imageKey),
      FirstTruthy([m.title], DefaultTitle),
      FirstTruthy(descriptions, NoDescription),
      SectionName(m.section),
      if HasFileRef(m) then
        DownloadButton(FirstTruthy([m.id], UnknownId), m.title, FirstTruthy([m.fileName], DefaultFileName))
      else DisabledButton)
  }

  /** The download control is enabled by a stand-in file URL alone, although
      the address resolution rejects that URL and resolves no file. */
  lemma StandInFileUrlStillEnablesDownload(m: Material)
    requires m.fileUrl != "" && !IsUsableUrl(m.fileUrl) && m.fileKey == ""
    ensures BuildCard(m).action.DownloadButton?
    ensures ResolveAssetUrl(m.fileUrl, m.fileKey) == None
  {
  }

  /** The cards rendered for a list, one per material, in list order. */
  function CardsFor(ms: seq<Material>): (r: seq<Card>)
    ensures |r| == |ms|
    ensures forall i :: 0 <= i < |ms| ==> r[i] == BuildCard(ms[i])
    ensures forall i :: 0 <= i < |ms| ==>
              r[i].sectionLabel == SectionName(ms[i].section) &&
              (r[i].action.DownloadButton? <==> HasFileRef(ms[i]))
  {
    seq(|ms|, i requires 0 <= i < |ms| => BuildCard(ms[i]))
  }

  /** Rendering a list card by card: the cards of a concatenation are the cards
      of its parts, one after the other. */
  lemma CardsForConcat(a: seq<Material>, b: seq<Material>)
    ensures CardsFor(a + b) == CardsFor(a) + CardsFor(b)
  {
    assert forall i :: 0 <= i < |a| ==> (a + b)[i] == a[i];
    assert forall i :: |a| <= i < |a| + |b| ==> (a + b)[i] == b[i - |a|];
  }

  /** A news item as received, with "" for a missing field. */
  datatype NewsItem = NewsItem(title: string, content: string, author: string)

  datatype NewsCard = NewsCard(title: string, content: string, author: string)

  const DefaultNewsTitle := "Yangilik sarlavhasi"
  const NoNewsContent := "Yangilik matni yo'q"
  const DefaultAuthor := "Dilnoza Qodirova"

  /** How many of the received news items are shown. */
  const LatestNewsCount := 3

  /** The text of a news card: each field as received, or its fixed default. */
  function NewsCardOf(n: NewsItem): (c: NewsCard)
    ensures c.title != "" && c.content != "" && c.author != ""
    ensures n.title != "" ==> c.title == n.title
    ensures n.content != "" ==> c.content == n.content
    ensures n.author != "" ==> c.author == n.author
    ensures n.title == "" ==> c.title == DefaultNewsTitle
    ensures n.content == "" ==> c.content == NoNewsContent
    ensures n.author == "" ==> c.author == DefaultAuthor
  {
    NewsCard(
      FirstTruthy([n.title], DefaultNewsTitle),
      FirstTruthy([n.content], NoNewsContent),
      FirstTruthy([n.author], DefaultAuthor))
  }
}
