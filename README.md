# Materials page logic of math-for-student, in Dafny

The materials page of this educational site runs a browser script. The script
fetches a list of study materials and a list of news items and renders them as
cards. It also keeps the last fetched materials in memory so that a section
filter can re-render them, and it starts file downloads. Most of the script is
network and DOM plumbing. This project models the decision logic inside it and
proves what that logic guarantees:

- **Assets**: which address a card uses for an image or a file. An explicit URL
  wins unless it is a stand-in ("placeholder", "example.com"). Otherwise a
  stored key is appended to the fixed object-storage bucket. Otherwise there is
  no address. The module also holds the direct-storage URL that
  `downloadMaterial` falls back to.
- **Cards**: the text fallbacks of a material card and a news card, the
  section labels, and whether a card's download button is enabled.
- **Materials**: the section filter over the cache, the lookup by `_id`, and the
  distinct-section count shown in the statistics.
- **View**: the `allMaterials` cache and the cards container, as a class.
  `Load` overwrites the cache only with a non-empty list. `Filter` re-renders a
  selection of the cache. `RenderNews` shows the first three news items.
- **Disposition**: the download filename taken from a Content-Disposition
  header. It is an exact scanner for the script's regular expression
  `filename[^;=\n]*=((['"]).*?\2|[^;\n]*)`, followed by removal of every quote
  character. This loosely follows the `filename` parameter of RFC 6266,
  section 4.1.
- **Counter**: `animateCounter`. Each interval tick moves the shown number by
  one toward its target and then stops on the target.
- **Handler**: the inline `onclick` text of the download button, kept for one
  finding (below).
- **Text** and **Wrappers**: string helpers and the `Option` type.

Conventions. An optional text field of a record is a `string`, and `""` stands
for a field that is missing, `null` or empty. The script checks most of these
fields only for truthiness, and all three values are falsy. The exceptions are
listed under "Left out". A fetch is given as its
outcome. `Fetched(items)` is the parsed list. `Failed(message)` is any error
the script catches: the health check was not ok, the list request was not ok,
or the network failed.

## Model

| member | source | states |
|---|---|---|
| `Text.Includes` | script-enhanced-fixed.js:88-89 | `includes` holds exactly when the searched text occurs at some position |
| `Text.ScanTo` | script-enhanced-fixed.js:493 | returns the first index at or after `i` whose character is a stop character, or the end of the string; every character before it is not a stop character. This is the run a greedy negated character class consumes |
| `Text.StripQuotes` | script-enhanced-fixed.js:496 | the result contains no `'` or `"`, is no longer than the input, and keeps every other character as often as the input has it |
| `Text.StripQuotesKeepsQuoteFree` | script-enhanced-fixed.js:496 | a string without quotes is returned unchanged |
| `Text.StripQuotesIdempotent` | script-enhanced-fixed.js:496 | removing quotes twice gives the same result as removing them once |
| `Text.StripQuotesConcat` | script-enhanced-fixed.js:496 | quote removal distributes over concatenation |
| `Materials.OfSection` | script-enhanced-fixed.js:600 | every selected material has the chosen section; each material of that section is kept exactly as often as in the cache; the result is no longer than the cache |
| `Materials.SelectionIsSectionSubsequence` | script-enhanced-fixed.js:597-600 | `"all"` selects the cache exactly, in the same order. Any other value selects an order-preserving subsequence of the cache, no longer than it, that holds each material of that section as often as the cache does and nothing else |
| `Materials.SelectSectionIdempotent` | script-enhanced-fixed.js:597-600 | filtering the filtered list again by the same value gives the same list |
| `Materials.FindFrom` | script-enhanced-fixed.js:428 | finds the first material with the given `_id`, or reports that no material has it |
| `Materials.SelectSection` | script-enhanced-fixed.js:597-600 | the filter's selection: `"all"` gives the cache itself; any other value keeps only materials of that section; never longer than the cache. With `SelectionIsSectionSubsequence` and `SelectSectionIdempotent` it is the order-preserving section subsequence |
| `Materials.DistinctSections` | script-enhanced-fixed.js:549 | the list of sections has no repetitions, holds exactly the sections that occur, and is no longer than the materials list |
| `Materials.DistinctSectionCount` | script-enhanced-fixed.js:549-550 | the sections counter's target equals the number of distinct sections |
| `Assets.StorageUrl` | script-enhanced-fixed.js:94 | a storage URL is the fixed bucket URL, then `/`, then exactly the key |
| `Assets.ResolveAssetUrl` | script-enhanced-fixed.js:86-115 | priority rule: a usable explicit URL is returned unchanged; otherwise a key gives its storage URL; otherwise there is no URL |
| `Assets.ResolvedUrlOrigin` | script-enhanced-fixed.js:86-115 | a URL is resolved exactly when a usable explicit URL or a key exists. A rejected stand-in URL never comes out; the result is then a storage URL |
| `Assets.WithScheme` | script-enhanced-fixed.js:435-437 | for the non-empty URL the guard lets through, the result always starts with `http`: a URL that already does is kept, and any other gets `https://` in front |
| `Assets.DirectStorageUrl` | script-enhanced-fixed.js:425-437 | returns no URL when no material has the `_id`, or when the first match has neither `fileUrl` nor `fileKey`. Otherwise it returns the scheme-normalised `fileUrl` if present, else the storage URL of `fileKey`. Any result starts with `http` |
| `Assets.StorageUrlHasScheme` | script-enhanced-fixed.js:433-436 | a storage URL already starts with `http`, so scheme normalisation leaves it as it is |
| `Cards.SectionName` | script-enhanced-fixed.js:348-356 | each of the four known codes gets its fixed label; any other code is returned unchanged |
| `Cards.KnownLabelsDistinct` | script-enhanced-fixed.js:349-354 | distinct known codes get distinct labels |
| `Cards.SectionNameAsWritten` | script-enhanced-fixed.js:348-356 | the lookup as written agrees with `SectionName` except on the names an object inherits from `Object.prototype`, where it yields the inherited member |
| `Cards.SectionNameAsWrittenDiverges` | script-enhanced-fixed.js:355 | the code `"toString"` is not shown as itself, although the intended rule returns it unchanged |
| `Cards.FirstTruthy` | script-enhanced-fixed.js:160-163 | a chain of JavaScript `or` operators on strings returns the first non-empty candidate, or the fallback when all are empty; with a non-empty fallback the result is never empty |
| `Cards.BuildCard` | script-enhanced-fixed.js:156-185 | the download button is enabled iff `fileKey` or `fileUrl` is non-empty, and then carries a non-empty id (`"unknown"` when `_id` is missing), the title unchanged and a non-empty file name (`"file"` by default). The title falls back to "Material"; the description falls back to `desc`, then to "Tavsif yo'q". The image follows the asset priority and the badge shows the section label |
| `Cards.CardsFor` | script-enhanced-fixed.js:72-189 | one card per material, in list order: card `i` is the card `BuildCard` makes for material `i`. So it shows that material's section label, and its download button is enabled exactly when the material has a file reference. `CardsForConcat` shows that the cards of a concatenation are the cards of its parts, as the `forEach` appends them |
| `Cards.CardsForConcat` | script-enhanced-fixed.js:72-189 | rendering a concatenated list gives the cards of the first part followed by those of the second |
| `Cards.StandInFileUrlStillEnablesDownload` | script-enhanced-fixed.js:173-181 | a stand-in `fileUrl` alone enables the download button, although address resolution rejects it and resolves no file |
| `Cards.NewsCardOf` | script-enhanced-fixed.js:273-275 | a news card's title, content and author are each the received value when it is non-empty, and otherwise the fixed default; none of them is ever empty |
| `Counter.StepsToward` | script-enhanced-fixed.js:571-582 | the values written by the moving ticks, from the start to the target: one per unit of distance. `StepsTowardShape` and `StepsTowardNeverOvershoots` fix each value, and `AnimateTo` is proved to write exactly this walk |
| `Counter.StepsTowardShape` | script-enhanced-fixed.js:571-582 | the walk to the target takes one step per unit of distance, and step `i` shows the start moved by `i + 1` toward the target |
| `Counter.StepsTowardNeverOvershoots` | script-enhanced-fixed.js:573-580 | every shown value lies between the start (exclusive) and the target (inclusive), and the last one is the target |
| `Counter.StatCounter.constructor` | script-enhanced-fixed.js:565 | a counter starts out showing the given number |
| `Counter.StatCounter.AnimateTo` | script-enhanced-fixed.js:561-583 | the counter ends on the target. It writes nothing when it is already there; otherwise it writes the unit-step walk to the target, then the target once more, then stops |
| `Disposition.ValueStart` | script-enhanced-fixed.js:493 | group 1 starts right after the `=` that ends the keyword's run of parameter-name characters: no `;`, `=` or newline lies between the keyword and that `=` |
| `Disposition.FirstMatch` | script-enhanced-fixed.js:492-494 | returns the leftmost position where the pattern matches, or reports that it matches nowhere |
| `Disposition.CaptureAt` | script-enhanced-fixed.js:493 | when an opening quote is closed by the same quote before any line terminator, group 1 is the quoted text including both quotes. Otherwise it is the longest run without `;` or a newline |
| `Disposition.CapturedFilename` | script-enhanced-fixed.js:492-495 | there is a capture exactly when the pattern matches somewhere in the header, and then it is group 1 (`CaptureAt`) of the match at the leftmost matching position |
| `Disposition.DownloadFilename` | script-enhanced-fixed.js:488-498 | the caller's default is used unless the header is present and its capture is non-empty. In that case the name is the capture with all quotes removed, and it contains no quote character |
| `Disposition.QuotedFilename` | script-enhanced-fixed.js:491-498 | `filename="name"` yields exactly `name`; empty quotes yield an empty name, not the default |
| `Disposition.ExtendedFilenameKeepsCharset` | script-enhanced-fixed.js:491-498 | `filename*=charset''name` is matched too, and yields `charset` followed by `name` |
| `Disposition.ExtendedCapture` | script-enhanced-fixed.js:493 | the value of an extended parameter is captured bare, up to the end of the header |
| `View.MaterialsView.constructor` | script-enhanced-fixed.js:586 | the cache starts empty and the container shows nothing |
| `View.MaterialsView.Show` | script-enhanced-fixed.js:72-192 | the container holds exactly the cards of the list, in order. The counters end on the list's length and on its number of distinct sections |
| `View.MaterialsView.Load` | script-enhanced-fixed.js:10-218 | a failure shows the error block and an empty list the "no materials" block; both leave the cache and the counters untouched. A non-empty list replaces the cache wholesale and is rendered |
| `View.MaterialsView.Filter` | script-enhanced-fixed.js:588-713 | never changes the cache, and changes nothing at all while the cache is empty. Otherwise it renders the selection, or shows the "nothing in this section" block with the chosen section's label |
| `View.RenderNews` | script-enhanced-fixed.js:221-306 | a failure shows the error block and an empty list the "no news" block. Otherwise the cards are the first `min(3, n)` items, in order, each with its defaults filled in |
| `Handler.InlineDownloadHandler` | script-enhanced-fixed.js:174-178 | the `onclick` text as written: `downloadMaterial('`, the id, `', '` whose last quote sits at `TitleQuoteIndex`, then the title, unescaped, and the rest of the call |
| `Handler.IdLiteralCloses` | script-enhanced-fixed.js:174-178 | an id without quote, backslash, line feed or carriage return is exactly the first literal, which closes just before the separator, so the next quote opens the title's literal |
| `Handler.SingleQuotedContent` | script-enhanced-fixed.js:174-178 | the plain content of a single-quoted literal is a prefix of the text after the opening quote, holds no quote, backslash, line feed or carriage return, and is the longest such run: the character after it, if any, is one of those |
| `Handler.PlainTitleSurvives` | script-enhanced-fixed.js:174-178 | with such an id, a title without quote, backslash, line feed or carriage return reaches the inline handler intact as the second literal |
| `Handler.ApostropheCutsTitle` | script-enhanced-fixed.js:174-178 | with such an id, a title with an apostrophe and no backslash or line break closes its literal at its first apostrophe: the literal holds only the part of the title before it, so the handler text is not the intended call |

## Findings

| source | as written | input that shows it | evidently intended | confidence | as-written member | corrected member |
|---|---|---|---|---|---|---|
| script-enhanced-fixed.js:348-356 | the labels are looked up on a plain object literal. A code that names an inherited `Object.prototype` member finds that member, which is truthy, so the fallback to the code itself never applies | section code `toString` (the badge would show the function's source text) | every code without a label is shown unchanged | not executed; it needs a material whose section is such a name | `Cards.SectionNameAsWrittenDiverges` | `Cards.SectionName` |
| script-enhanced-fixed.js:174-178 | the id, title and file name are pasted between single quotes, unescaped, into the source text of the `onclick` handler | title `Qo'llanma` (the literal ends after `Qo`, and the rest makes the handler text malformed) | the button passes the material's title to `downloadMaterial` unchanged | not executed; apostrophes are common in Uzbek titles, and the page's own labels contain them | `Handler.ApostropheCutsTitle` | `Cards.BuildCard` |

The rest of the model uses the corrected forms. Card badges and the "nothing in
this section" block use `Cards.SectionName`. A card's `DownloadButton` carries
its arguments as values, so `BuildCard` proves that the title reaches the
download unchanged.

## Left out

- Network I/O is not modelled: every `fetch`, the health check, `.json()` and `.blob()`. Fetched data enter as `FetchOutcome` values.
- DOM work is not modelled: `innerHTML` templates, `createElement`, `appendChild`, the image `onerror`/`onload` handlers and anchor `click()` downloads. Cards are values appended to a sequence. HTML escaping of titles, and the markup injection it allows, is not modelled.
- The missing-element early returns are not modelled: the cards and news containers (`!container`) and the `totalMaterials` and `totalSections` counter elements (`animateCounter`, lines 562-563) are assumed to exist.
- `formatDate` and the news date handling are not modelled, because they depend on `Date` parsing and locale formatting. Cards carry no date.
- `showNotification` and `trackDownload` are not modelled, including the filter's "N materials found" message. These are transient messages on timers.
- `StatCounter.AnimateTo` runs the `setInterval` ticks to completion in one loop. The tick period (`stepTime`) is not modelled. Two animations interleaving on the same element are not modelled either.
- `StatCounter.AnimateTo` keeps the counter as an integer field. Reading it back through `parseInt(textContent) || 0` is not modelled, so a non-numeric text read as 0 is not covered.
- The main path of `downloadMaterial` is not modelled: it only clicks an anchor, and its `try`/`catch` control flow is left out. Only the fallback URL it computes after an exception is modelled, as `Assets.DirectStorageUrl`. The fallback's own fetch is an input list; a non-ok response is not modelled.
- The fetch, blob and object-URL handling of `downloadMaterialAdvanced` is not modelled. Only its filename choice is.
- `setCurrentYear`, the `DOMContentLoaded` start-up delays, `debugLog`, console output and the global `error`/`unhandledrejection` handlers are not modelled (clock, timers, diagnostics).
- The script also resolves a file URL for each card (lines 100-115 and 635-645), but the card markup never reads it. `ResolveAssetUrl` models that rule; `Card` does not carry the result.
- A missing or `null` `_id` or `section` is represented as `""`, which the script does not always treat like an empty string. The places where this matters are not modelled:
  - `undefined === ""` is false in the script, but the model matches an id or section of `""`.
  - `getSectionName(undefined)` returns `undefined` (line 355), so the script's badge shows the text "undefined" or "null" (line 166); `BuildCard` shows `""`.
  - `new Set(materials.map(m => m.section))` (line 549) counts a missing, a `null` and an empty section as three sections; `DistinctSections` counts them as one.
- `InlineDownloadHandler` pastes the title without a fallback (line 176), so in the script a missing title becomes the text "undefined" in the handler; the model pastes `""`.
- JSON values that are not strings (numbers, objects) are not modelled.
