# Catalog browser: filter, grid and detail model

A Dafny model of the decision logic of a client-side project catalog
(`script.js`). The page shows project records as cards, narrows them by
facet buttons (a year or an area, plus the special token `"all"`) and by a
search box, and shows one record's details in a modal. The DOM is replaced
by explicit values:

- the active facets are a `set<string>` and the search box a `string`
  (`FilterState`);
- the grid is `NoResults` or `Cards(seq<Card>)` (`Grid.View`);
- the modal is an open flag plus the last detail view (`Detail.Modal`).

Modules, leaves first:

- `Wrappers`: `Option`. An absent record property is `None`.
- `Seqs`: `Filter` (the model of `Array.prototype.filter`) and the
  subsequence relation. `FilterUnique` proves that a stable subsequence
  keeping exactly the matching elements is `Filter`.
- `Text`: `trim` (the ECMAScript whitespace and line-terminator set),
  ASCII `toLowerCase`, `includes` (`Contains`, proved equal to "occurs at
  some position"), `Array.prototype.join`, and the decimal rendering of a
  count.
- `Records`: the record datatype and the search haystack. The haystack is
  built with JavaScript's coercions: an array added to a string is
  comma-joined, and an absent `languages` or `tools` becomes the text
  `"undefined"`.
- `FilterEngine`: `applyFilters` as `ComputeVisible`, a facet step and a
  search step. `FilterProperties` holds the lemmas about it.
- `Facets`: the facet-button click and the clear action as transitions of
  the filter state.
- `Grid`: `renderCard` and `renderGrid`.
- `Detail`: `openModal` (lookup, per-section presence, team line, image
  paths) and the three dismiss handlers.
- `Page`: every user event as one step function. It proves that the grid
  on screen is always the rendering of `ComputeVisible` for the current
  filter state. This includes the clear action, which redraws the full
  store directly instead of calling `applyFilters`.
- `Scenario`: a two-record worked example.

Behaviour of the code worth knowing before reading the model:

- The search text is matched against the title, languages, tools, tags and
  area run together with no separator (script.js:151). An absent language
  or tool list adds the word `undefined`, and a present one is
  comma-joined. `FilterProperties.UndefinedFindsMissingLists` proves one
  consequence: the query "undefined" finds every record that lacks either
  list.
- Text inserted as markup, unescaped: in the modal, the title and type
  (script.js:80), the enterprise (script.js:85), the languages and tools
  (script.js:101, 109) and the image names and title (script.js:118). On
  a card, the title, description and tags go through `escapeHTML`, which
  is not an escaper (see Left out). The area and year (script.js:44), the
  id (script.js:46), the type (script.js:47) and the icon (script.js:29)
  are inserted raw. Markup is outside this model.

## Model

| member | source | states |
|---|---|---|
| Seqs.Filter | script.js:145-152 | `Array.filter`: the result is a subsequence of the input. Each element keeps its full multiplicity if it matches and is dropped otherwise. It is never longer than the input, and its members are exactly the matching members of the input. |
| Seqs.FilterUnique | script.js:145-152 | Reference characterisation: any subsequence of `xs` that holds exactly the matching elements, with full multiplicity, equals `Filter(xs, p)`. |
| Seqs.SubsequenceTransitive | script.js:145-152 | A subsequence of a subsequence is a subsequence. This is why chaining the two filter steps keeps store order. |
| Seqs.SubsequenceCounts | script.js:145-152 | A subsequence never holds more copies of an element than its source, so filtering never invents records. |
| Text.Trim | script.js:143 | `trim()`: the result sits inside the input with only whitespace before and after it. It neither starts nor ends with whitespace. It is empty exactly when the input is all whitespace. |
| Text.Lower | script.js:143 | `toLowerCase()`: same length, each character lowered on its own (ASCII capitals to small letters, everything else kept). |
| Text.LowerKeepsTrim | script.js:143 | A trimmed piece of a string, lowered, is a trimmed piece of the lowered string, so `trim().toLowerCase()` trims the lowered text. |
| Text.LowerKeepsWhitespace | script.js:143 | Lowering keeps each character whitespace exactly when it was, so a trimmed query stays trimmed after lower-casing. |
| Text.LowerPreservesOccurrence | script.js:151 | A substring occurrence survives lowering both strings. This makes the search case-insensitive. |
| Text.Contains | script.js:151 | `includes(q)` is true iff `q` occurs at some position of the haystack. |
| Text.Join | script.js:151 | `join(sep)`: no elements give the empty text, one element gives itself, and every element is a substring of the joined text. |
| Text.JoinSnoc | script.js:151 | Independent characterisation of `join`: appending an element to a non-empty list appends the separator and then the element. |
| Text.JoinPair | script.js:151 | Two elements join as the first, the separator, then the second. |
| Text.Decimal | script.js:93 | Number-to-text of the team size: a non-empty digit string that denotes `n` and has no leading zero (only "0" itself starts with "0"). |
| Records.ListText | script.js:151 | An absent list adds the text "undefined" to the haystack. A present list adds exactly its elements joined by ",", so each element is a substring. |
| Records.Haystack | script.js:151 | The haystack is the title, the languages text, the tools text, the tags joined by a space, and the area, each found at the offset where the previous ones end, and nothing else. |
| Records.HaystackHoldsFields | script.js:151 | Any substring of the title, the area, a tag, a language or a tool is a substring of the haystack. |
| Records.HaystackHoldsUndefined | script.js:151 | A record lacking its languages or its tools has "undefined" in its haystack. |
| FilterEngine.Normalize | script.js:143 | The query used is a piece of the lowered input with only whitespace before and after it, and free of whitespace at both ends, which fixes it as the trimmed, lowered input. It is also no longer than the input, already lower-case, and empty exactly when the input is all whitespace. |
| FilterEngine.FacetStep | script.js:147-149 | A record survives iff the active set is empty, contains "all", or contains the record's year or area (OR across tokens). Survivors keep store order and multiplicity. |
| FilterEngine.SearchStep | script.js:150-152 | With a non-empty normalised query, a record survives iff the query occurs in its lowered haystack; an empty query keeps every record. Survivors keep store order. |
| FilterEngine.ComputeVisible | script.js:142-154 | The visible list is exactly the records passing both steps, in store order, unaltered, never longer than the store. |
| FilterProperties.VisibleIsOneFilter | script.js:142-154 | The two steps together equal one stable filter by the selection predicate. |
| FilterProperties.FacetStepKeepsMatches | script.js:147-148 | With a non-empty active set lacking "all", a record survives the facet step iff its year or area is active. |
| FilterProperties.UnrestrictedFacetsKeepAll | script.js:147 | An empty active set, or one containing "all", keeps every record. |
| FilterProperties.BlankQueryIsEmpty | script.js:143 | A search box holding only whitespace normalises to the empty query. |
| FilterProperties.NormalizeIdempotent | script.js:143 | Normalising an already normalised query changes nothing. |
| FilterProperties.BlankQueryKeepsFacetResult | script.js:150 | A blank query leaves the facet step's result unchanged. |
| FilterProperties.AllIsSearchOnly | script.js:147-152 | With "all" active, the visible list is the search step alone. |
| FilterProperties.NoneSelectedShowsAsAll | script.js:147 | An active set emptied by deselection shows the same list as `{"all"}`. |
| FilterProperties.EmptyStoreShowsNothing | script.js:145 | An empty store gives an empty visible list. |
| FilterProperties.SearchFindsFields | script.js:143-151 | A query that, after trim and lower-casing, equals the lowered form of part of a title, area, tag, language or tool finds the record, provided its facets admit it. |
| FilterProperties.UndefinedFindsMissingLists | script.js:151 | The query "undefined" finds every admitted record lacking its languages or tools. |
| Facets.Click | script.js:159-166 | Clicking "all" gives exactly `{"all"}`. Clicking another token `f` removes "all" and flips `f`'s membership. No other token changes. |
| Facets.ClickFacet | script.js:157-168 | A facet click changes the active set and keeps the search text. |
| Facets.Clear | script.js:172-175 | The clear action leaves only "all" active and an empty query. |
| Facets.ClickMakesExclusive | script.js:159-166 | After any click, "all" is never active together with another token. |
| Facets.ClickTwiceRestores | script.js:163-166 | Toggling one token twice, starting from a set without "all", restores the set. |
| Facets.ClearShowsEverything | script.js:172-177 | On the cleared state, `applyFilters` computes the whole store in order, which is what the clear handler draws. |
| Grid.ThumbOf | script.js:28-30 | The thumbnail is the icon iff the icon is a non-empty string; otherwise it is the placeholder. |
| Grid.RenderCard | script.js:22-49 | A card shows its record's id, title, description, tags, area, year and type, and the thumbnail rule. |
| Grid.RenderGrid | script.js:65-73 | An empty list gives only the "no results" placeholder. Otherwise there is one card per record, in list order. |
| Grid.GridIdsAreRecordIds | script.js:65-73 | The cards' ids are the records' ids in the same order. |
| Detail.Find | script.js:76 | `find`: the position of the first record with the id, or `None` when no record has it. |
| Detail.FindStored | script.js:76 | With unique ids, looking up a stored record's id finds that record. |
| Detail.FindsSome | script.js:76 | Looking up any stored record's id finds a record. |
| Detail.TeamLine | script.js:92-93 | The team line is exactly the decimal digits of `N` with no leading zero, which read back as `N`, then " participant", then "s" iff `N > 1`; its length is the digit count plus 12, plus one when `N > 1`. |
| Detail.ImagePaths | script.js:116-119 | One path per image, in order, each the image folder "images/" followed by the image name. |
| Detail.ListSection | script.js:100-113 | A language or tool section is shown iff its list is present and non-empty, and then shows that list. |
| Detail.Project | script.js:80-124 | Required fields are copied. The enterprise shows iff present and non-empty. The team shows iff present and > 0. Languages, tools and images show iff non-empty, images with the folder prefix. |
| Detail.BareRecordHasNoSections | script.js:84-124 | A record with no enterprise, team ≤ 0, and empty or absent lists gets a view with all five optional sections absent. |
| Detail.OpenModal | script.js:75-128 | An unknown id leaves the modal as it was. Otherwise the modal opens on the first matching record; the last open wins. |
| Detail.Dismiss | script.js:130-191 | The close button, a click on the backdrop itself, or Escape closes the modal and keeps its content. A click inside the dialog or another key changes nothing. |
| Detail.DismissIdempotent | script.js:187-191 | Repeating a dismissal is a no-op. |
| Page.Init | script.js:182-184 | At load, "all" alone is active, the query is empty and the whole store is rendered; the modal starts hidden (see Left out for what this assumes of the page markup). |
| Page.InitConsistent | script.js:182-184 | The initial page is consistent: its grid is the rendering of the visible list, and "all" is exclusive. |
| Page.StepConsistent | script.js:157-180 | From a consistent page, facet clicks, typing, the clear action and modal events all keep the grid equal to the rendering of the visible list and keep "all" exclusive. |
| Page.Step | script.js:130-191 | A facet click or typing changes only the filters and redraws `ComputeVisible`; the clear action sets `{"all"}` and an empty query and draws the whole store; none of these touch the modal. "Détails" or Enter on a card opens the modal for that id; Escape on a card closes it after the card handled the key; other keys, and events on the modal, leave the filters and grid. |
| Page.Run | script.js:157-191 | Events are handled one at a time; a consistent page stays consistent over any sequence of events. |
| Page.RunSnoc | script.js:157-191 | Running one more event equals one more step after the run. |
| Page.StepEnter | script.js:52 | Enter on a card only hands the card's id to `openModal`. |
| Page.StepClear | script.js:176 | The clear handler draws the full store. |
| Page.ClearRestoresFullList | script.js:172-177 | After any history, the clear action shows the full store in original order, in agreement with the filters. |
| Page.StepDetails | script.js:53 | A "Détails" click only hands the id to `openModal`. |
| Page.CardRecordIsStored | script.js:71 | The record behind every card on screen is in the store. |
| Page.CardOpensModal | script.js:52-53 | Activating any card on screen, by its "Détails" button or by Enter, opens the modal. |
| Page.CardShowsItsRecord | script.js:52-53 | With unique ids, activating a card by its button or by Enter shows that card's record. |
| Page.UnknownIdChangesNothing | script.js:76-79 | Asking for an id no record has leaves the whole page unchanged, by click or by Enter. |
| Page.ModalEventsKeepGrid | script.js:75-139 | Opening or dismissing the modal never changes the filters or the grid. |
| Scenario.WebFacetShowsAlpha | script.js:147-149 | Two-record example: clicking "web" from the initial state shows Alpha only. |
| Scenario.QueryYShowsBeta | script.js:150-152 | Same store: with "all" restored, the query "y" shows Beta only, found through its tag. |
| Scenario.BetaDetailsAreBare | script.js:75-128 | Same store: opening id 2 from the initial modal gives exactly the open modal showing Beta's title, description and year with no optional section. |

## Left out

- DOM construction, `innerHTML` markup, CSS `display` values, focus order
  and listener registration. Each section's visibility is reduced to
  `Some`/`None`.
- `escapeHTML` (script.js:57-59) is not modelled. Its pattern only matches
  a two-character pair whose first character is `&`, `<`, `>` or `"`. It
  replaces the whole pair with the first character's code, so the second
  character is lost. It does not escape a lone special character, so it is
  not an HTML escaper, and no escaping property is stated.
- `escapeInitials` (script.js:61-63) is never called.
- `projects.js` (the initial data) is not part of this model. The store is
  a parameter `ps: seq<Record>`. Image and icon loading is also out.
- The year is held in its string form. `String(year)` of a numeric year is
  not modelled.
- Ids are `int` and compared with `==`. JavaScript's loose `==` between,
  say, a string id and a numeric id is not modelled.
- Text.Lower: only ASCII letters are lowered. Unicode case mapping (which
  can change a string's length) is not modelled.
- Text.Trim: it follows the ECMAScript whitespace set. Strings are
  sequences of Unicode scalar values, not UTF-16 code units.
- Detail.TeamLine: the team size is an integer. A fractional JavaScript
  number, and `String(n)` of non-integers, are not modelled. `Decimal`
  writes every `n` in plain digits, whereas JavaScript switches to
  exponent form from 10^21 ("1e+21"). A team above 2^53 is not exact as a
  JavaScript number.
- Detail.Project: a hidden language or tool section keeps its previous
  list in the DOM (script.js:104 and 112 only hide it), and a hidden team
  section keeps its previous count text (script.js:96). The model drops
  the content of a hidden section.
- Grid.RenderCard: the card holds the record's values before any
  escaping. `escapeHTML` can drop a character ("R&é" becomes "R&#38;"
  without the "é"), and the card does not model that loss.
- The facet buttons are a fixed set of tokens on the page. The model
  accepts any token. It assumes the clear button is not itself a facet
  button. `Page.Init` also assumes three facts of the page markup, which
  script.js:182-184 does not establish:
  - the search box is empty at load;
  - the modal backdrop starts hidden;
  - no facet button other than "all" starts active, since line 183 adds
    a class to "all" but removes none from the others.
- Detail.Dismiss: a backdrop click is reduced to whether the click
  landed on the backdrop element itself (`e.target === backdrop`).
