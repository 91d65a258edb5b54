# satelliteData front end: filter, search and selection logic

This project models the logic inside the satelliteData React front end, which
lists satellite records fetched from a catalogue service. The user can:

- narrow the list with a text query, object-type checkboxes and orbit-code
  checkboxes;
- select up to ten records for a side panel.

React keeps this logic in closures inside the components. The model restates
it in Dafny and proves what it promises:

- **Filter panel** (`components/Filters.tsx`, module `Filters`):
  - the checkbox `toggle`;
  - `normalizeOrbitCodes`, which turns codes such as `{LEO, MEO}` into token
    lists;
  - the draft filter that previews what applying would show;
  - the two facet counters, `typeCounts` and `orbitCounts`, as methods with
    loops that accumulate into a map;
  - the draft state and its apply/clear transitions, as the class
    `FilterPanel`.
- **The page** (`pages/Home.tsx`, module `Home`):
  - the initial applied filter;
  - `handleSearch`, which trims the query;
  - the applied filter, which combines a text test, a type test and an orbit
    test. The orbit test uses the page's own inline orbit tokeniser, which is
    kept apart from the panel's normaliser.
- **The selection** (`components/SatelliteTable.tsx`,
  `components/SelectedSidebar.tsx`; modules `SatelliteTable`,
  `SelectedSidebar`, `Selection`):
  - the capped toggle keyed by `noradCatId`;
  - remove-by-id and clear;
  - the proceed button's disabled state.

  The page's `selected` state is the class `Selection.SelectedSatellites`.
  Its invariant is that it holds at most ten rows and no identifier twice.
- **The search box** (`components/SearchBar.tsx`, module `SearchBar`): the
  `input` state as a class. The rule for when a query is committed is modelled
  as returning `Some(query)` (emitted) or `None` (not emitted).

Two support modules define the library operations the code relies on, over
`seq<char>`:

- `Seqs`: `filter`, `map`, counting and order-preserving subsequences.
- `Text`: `trim`, `toLowerCase`, `toUpperCase`, `includes`, `split` on one
  character, and `replace(/[{}]/g, '')`.

A satellite record is the datatype `Satellites.Satellite`. Each field is a
string, and an empty string stands for an absent value. JavaScript's `x || d`
default is `Satellites.OrDefault`.

### Where the two orbit tokenisers differ

The panel's preview and the page's applied filter tokenise a record's orbit
code differently:

- The panel (`Filters.tsx:52-59`) trims the pieces and drops empty ones, and
  it special-cases `UNKNOWN`.
- The page (`Home.tsx:65-68`) trims and upper-cases the pieces and keeps
  empty ones.

`Home.TokenisersAgree` proves how exactly they relate: the page's tokens
without the empty ones are the panel's tokens upper-cased.
`Home.AppliedOrbitMatchIsDraftMatch` proves that the two orbit tests agree
when the record's code has no lower-case letters and every code in the applied
filter is non-empty. `Home.LowerCaseCodeSplitsPreviewAndPage` exhibits a record
on `leo` that the page keeps under the `LEO` filter but the preview drops.

### Behaviour worth noting

- A brace-only code such as `{}` normalises to `[]`
  (`Filters.NormalizeBracesOnly`).
- A checkbox click toggles: a ticked value is removed (`Filters.Toggle`).
- The page filters with its own upper-casing tokeniser, not with the panel's
  normaliser (`Home.OrbitTokens`).

## Model

| member | source | states |
|---|---|---|
| Filters.Toggle | satelliteData/src/components/Filters.tsx:39-40 | An absent value is appended at the end. A present value loses every occurrence, and the rest stays in order. Any other value is in the result exactly when it was in the list, and when the value was present every other value keeps its number of copies. |
| Filters.ToggleTwice | satelliteData/src/components/Filters.tsx:39-40 | Toggling an absent value twice gives back the original list. |
| Filters.ToggleKeepsDistinct | satelliteData/src/components/Filters.tsx:39-40 | A checkbox list without repetitions stays without repetitions. |
| Filters.NormalizeOrbitCodes | satelliteData/src/components/Filters.tsx:52-59 | The empty code and `UNKNOWN` both give exactly `["UNKNOWN"]`. Every token produced is non-empty and trimmed, and contains no brace and no comma. |
| Filters.NormalizedCharsFromCode | satelliteData/src/components/Filters.tsx:54-58 | Apart from the `UNKNOWN` default, every normalised token is made of characters of the raw code. |
| Filters.NormalizeBraced | satelliteData/src/components/Filters.tsx:54-58 | Round trip: take well-formed tokens, write them in braces with commas and optional whitespace after each comma, and normalise. The result is exactly those tokens, in their order. |
| Filters.NormalizeTwoCodes | satelliteData/src/components/Filters.tsx:54-58 | `{LEO, MEO}` normalises to `["LEO", "MEO"]`. |
| Filters.NormalizeBracesOnly | satelliteData/src/components/Filters.tsx:54-58 | `{}` normalises to the empty list. |
| Filters.NormalizeSingleToken | satelliteData/src/components/Filters.tsx:52-59 | A code that is one well-formed token normalises to that token alone. |
| Filters.OrbitLabelsNormalizeToThemselves | satelliteData/src/components/Filters.tsx:19-24 | Every orbit-code checkbox label normalises to itself alone. |
| Filters.DraftFilter | satelliteData/src/components/Filters.tsx:61-69 | The preview is an order-preserving subsequence of the data. It keeps exactly the records that pass both the type test and the orbit test, where an empty selection passes everything, and each kept record keeps all its copies. |
| Filters.DraftFilterUnrestricted | satelliteData/src/components/Filters.tsx:61-69 | With no type and no orbit ticked, the preview is the whole data. |
| Filters.TypeTally | satelliteData/src/components/Filters.tsx:71-77 | A type tally never exceeds the number of records. Nothing is counted under the empty key, because an empty type counts as `UNKNOWN`. |
| Filters.TypeCounts | satelliteData/src/components/Filters.tsx:71-77 | Every key's count is its tally, and only keys that occur are present. The counts add up to the number of records. |
| Filters.OrbitTally | satelliteData/src/components/Filters.tsx:79-87 | Nothing is counted under the empty key. |
| Filters.OrbitCounts | satelliteData/src/components/Filters.tsx:79-87 | Every code's count is its number of occurrences over all records' normalised lists, with duplicates counted per occurrence. Only codes that occur are present. The counts add up to the total length of those lists. |
| Filters.FilterPanel.constructor | satelliteData/src/components/Filters.tsx:36-37 | Each draft starts as the applied filter's list. |
| Filters.FilterPanel.FilteredData | satelliteData/src/components/Filters.tsx:61-69 | The preview of the current drafts is an order-preserving subsequence of the data. It keeps exactly the records that pass the drafts, each with all its copies. |
| Filters.FilterPanel.ToggleType | satelliteData/src/components/Filters.tsx:137 | A type checkbox toggles its label in the type draft and changes nothing else. |
| Filters.FilterPanel.ToggleOrbit | satelliteData/src/components/Filters.tsx:161 | An orbit checkbox toggles its code in the orbit draft and changes nothing else. |
| Filters.FilterPanel.ApplyFilters | satelliteData/src/components/Filters.tsx:42-44 | The applied filter becomes exactly the current drafts, and the drafts are unchanged. |
| Filters.FilterPanel.ClearFilters | satelliteData/src/components/Filters.tsx:46-50 | Both drafts and the applied filter become empty, and the preview then keeps every record. |
| Home.InitialFilters | satelliteData/src/pages/Home.tsx:23-29 | The initial applied filter ticks every object-type checkbox and no orbit code. |
| Home.InitialFiltersAdmitKnownTypes | satelliteData/src/pages/Home.tsx:23-29 | Under the initial filter, a record is shown exactly when its type is one of the four known ones and the text test passes. |
| Home.HandleSearch | satelliteData/src/pages/Home.tsx:54-56 | The stored query is trimmed. It is empty exactly when the input was all whitespace. An already trimmed query is stored as it is. |
| Home.CommittedQueryIsStoredAsIs | satelliteData/src/pages/Home.tsx:54-56 | A query the search box commits is stored unchanged by the page. |
| Home.EmptyQueryMatchesAll | satelliteData/src/pages/Home.tsx:60-62 | The empty query passes the text test for every record. |
| Home.NameMatchIgnoresCase | satelliteData/src/pages/Home.tsx:61 | The name test gives the same answer whatever the letter case of the name or of the query. |
| Home.IdMatchIsCaseSensitive | satelliteData/src/pages/Home.tsx:62 | The identifier test sees case: `ab` is found by `ab` and not by `AB`. |
| Home.EmptyTypeIsUnknown | satelliteData/src/pages/Home.tsx:64 | A record without an object type is tested exactly as an `UNKNOWN` one. |
| Home.CleanToken | satelliteData/src/pages/Home.tsx:68 | A cleaned piece is trimmed and has no lower-case letter. Each of its characters comes from the piece or is an upper-case letter. |
| Home.OrbitTokens | satelliteData/src/pages/Home.tsx:65-68 | There is always at least one token. Every token is trimmed and upper-case, and contains no brace and no comma. |
| Home.SingleTokenUpper | satelliteData/src/pages/Home.tsx:65-68 | A code that is one well-formed token gives that token upper-cased. |
| Home.SingleTokenCode | satelliteData/src/pages/Home.tsx:65-68 | A clean upper-case single code is its own only token. |
| Home.NoOrbitCodeIsUnknown | satelliteData/src/pages/Home.tsx:65 | A record without an orbit code has the single token `UNKNOWN`. |
| Home.BracesOnlyIsEmptyToken | satelliteData/src/pages/Home.tsx:65-68 | `{}` gives the single empty token, where the panel's normaliser gives none. |
| Home.PairTokens | satelliteData/src/pages/Home.tsx:65-68 | A braced pair of codes gives the two cleaned codes, in order. |
| Home.TokenisersAgree | satelliteData/src/pages/Home.tsx:65-68 | Drop the empty tokens from the page's list: what remains is the panel's normalised list, upper-cased. |
| Home.AppliedOrbitMatchIsDraftMatch | satelliteData/src/pages/Home.tsx:74-76 | Take a code without lower-case letters and filter codes that are non-empty. Then the page's orbit test holds exactly when the panel's orbit test holds. |
| Home.OrbitsAreUpperCase | satelliteData/src/components/Filters.tsx:52-59 | For a code without lower-case letters, upper-casing the panel's normalised tokens changes none of them. |
| Home.LowerCaseCodeSplitsPreviewAndPage | satelliteData/src/pages/Home.tsx:65-76 | Under the `LEO` filter, a record on `leo` is kept by the page and dropped by the panel's preview. |
| Home.FilteredData | satelliteData/src/pages/Home.tsx:58-80 | The shown list is an order-preserving subsequence of the data. It keeps exactly the records that pass the text, type and orbit tests, each with all its copies. |
| Home.FilteredDataUnrestricted | satelliteData/src/pages/Home.tsx:58-80 | With no type, no orbit and an empty query, every record is shown. |
| Home.ScenarioPayloadOnMeo | satelliteData/src/pages/Home.tsx:58-80 | A payload on `{LEO,MEO}` is shown under the filter for payloads on MEO. It is hidden under the filter that allows only debris. |
| Home.ScenarioNoOrbitCode | satelliteData/src/pages/Home.tsx:65-76 | A record without an orbit code passes the filter that allows only `UNKNOWN`. |
| Satellites.OrDefault | satelliteData/src/pages/Home.tsx:64-65 | `x \|\| d` gives `x` unless `x` is empty, and `d` otherwise. |
| Satellites.WithoutId | satelliteData/src/components/SelectedSidebar.tsx:14 | No entry with the identifier is left. Every other entry stays, in order and with all its copies, and the length never grows. |
| Satellites.HasId | satelliteData/src/components/SatelliteTable.tsx:41 | Some entry carries the identifier: the `find` by `noradCatId` succeeds exactly when some position of the selection holds it. |
| SatelliteTable.ToggleSelection | satelliteData/src/components/SatelliteTable.tsx:40-49 | A selected identifier is removed with all its entries. An absent row is appended while fewer than ten are selected. Otherwise the toggle is refused, exactly when the row is absent and ten or more are selected. |
| SatelliteTable.ToggleKeepsBound | satelliteData/src/components/SatelliteTable.tsx:44 | A selection of at most ten stays at most ten. |
| SatelliteTable.ToggleKeepsUniqueIds | satelliteData/src/components/SatelliteTable.tsx:41-45 | Unique identifiers stay unique. |
| SatelliteTable.ToggleTwiceRestores | satelliteData/src/components/SatelliteTable.tsx:41-45 | Toggling an absent row twice while there is room gives back the original selection. |
| SatelliteTable.ToggleAtCapacity | satelliteData/src/components/SatelliteTable.tsx:46-47 | At ten rows a new row is refused, and the selection is exactly what it was. |
| SelectedSidebar.RemoveAbsentIsNoop | satelliteData/src/components/SelectedSidebar.tsx:14 | Removing an identifier that is not selected changes nothing. |
| SelectedSidebar.RemoveKeepsInvariant | satelliteData/src/components/SelectedSidebar.tsx:14 | Removal never grows the selection, keeps it within the cap of ten, and keeps its identifiers unique. |
| SelectedSidebar.ProceedDisabled | satelliteData/src/components/SelectedSidebar.tsx:60 | Proceeding is disabled exactly when nothing is selected. |
| Selection.SelectedSatellites.constructor | satelliteData/src/pages/Home.tsx:19 | The selection starts empty, which satisfies the invariant. |
| Selection.SelectedSatellites.ToggleSelection | satelliteData/src/components/SatelliteTable.tsx:40-49 | The new selection is the toggle's outcome, and the invariant is kept. The alert is raised exactly when the row is absent and ten are selected, and the selection is then unchanged. |
| Selection.SelectedSatellites.HandleRemove | satelliteData/src/components/SelectedSidebar.tsx:13-15 | The selection loses exactly the entries with the identifier, and the invariant is kept. |
| Selection.SelectedSatellites.HandleClear | satelliteData/src/components/SelectedSidebar.tsx:18-20 | The selection becomes empty, whatever it was. |
| Selection.SelectedSatellites.ProceedDisabled | satelliteData/src/components/SelectedSidebar.tsx:60 | Proceeding is disabled exactly when the held selection is empty. |
| SearchBar.SearchBarState.constructor | satelliteData/src/components/SearchBar.tsx:8 | The box starts empty. |
| SearchBar.SearchBarState.OnChange | satelliteData/src/components/SearchBar.tsx:35 | The box holds what was typed. |
| SearchBar.SearchBarState.HandleSearch | satelliteData/src/components/SearchBar.tsx:10-13 | A query is emitted exactly when the input is not all whitespace. What is emitted is the trimmed input: non-empty and already trimmed. |
| SearchBar.SearchBarState.HandleKeyDown | satelliteData/src/components/SearchBar.tsx:15-17 | Enter does exactly what the Search button does, and any other key emits nothing. |
| SearchBar.SearchBarState.HandleClear | satelliteData/src/components/SearchBar.tsx:19-22 | The box becomes empty and the empty query is emitted. |
| Text.Trim | satelliteData/src/components/SearchBar.tsx:11 | The result is trimmed and made of characters of the input. It is empty exactly when the input is all whitespace. A trimmed input is its own result. |
| Text.TrimIsMiddle | satelliteData/src/components/SearchBar.tsx:11 | The result is a contiguous piece of the input, with only whitespace on either side of it. |
| Text.TrimIdempotent | satelliteData/src/components/SearchBar.tsx:11 | Trimming twice is trimming once. |
| Text.TrimAfterSpace | satelliteData/src/components/Filters.tsx:57 | Whitespace in front of a piece disappears under trimming. |
| Text.StripBraces | satelliteData/src/components/Filters.tsx:55 | Every brace is removed, and every other character is kept in order, with its number of occurrences. |
| Text.StripBracesAround | satelliteData/src/components/Filters.tsx:55 | Braces around a brace-free string are removed, and nothing else. |
| Text.Split | satelliteData/src/components/Filters.tsx:56 | There is at least one piece. No piece contains the separator, and every piece is made of characters of the input. |
| Text.JoinSplit | satelliteData/src/components/Filters.tsx:56 | Joining the pieces with the separator gives back the input. |
| Text.SplitJoin | satelliteData/src/components/Filters.tsx:56 | Splitting a join of separator-free pieces gives back the pieces. |
| Text.Includes | satelliteData/src/pages/Home.tsx:61-62 | `includes` holds exactly when the query occurs at some position of the string. |
| Text.IncludesEmpty | satelliteData/src/pages/Home.tsx:61-62 | The empty string is included in every string. |
| Text.ToUpper | satelliteData/src/pages/Home.tsx:68 | Upper-casing keeps the length and maps each character on its own. |
| Text.ToLower | satelliteData/src/pages/Home.tsx:61 | Lower-casing keeps the length and maps each character on its own. |
| Text.UpperFixesUpper | satelliteData/src/pages/Home.tsx:68 | Upper-casing leaves no lower-case letter, and changes nothing in a string that has none. |
| Text.UpperKeepsTrimmed | satelliteData/src/pages/Home.tsx:68 | Upper-casing a trimmed piece leaves it trimmed, and each character is one of the piece's or an upper-case letter. |
| Text.LowerForgetsCase | satelliteData/src/pages/Home.tsx:61 | Lower-casing gives the same string whatever the input's case was. |
| Seqs.Filter | satelliteData/src/components/Filters.tsx:62 | `filter` keeps exactly the elements that satisfy the test, in their order and each with all its copies. |
| Seqs.Map | satelliteData/src/components/Filters.tsx:57 | `map` keeps the length and applies the function at every position, in order. |
| Seqs.FilterAll | satelliteData/src/components/Filters.tsx:62 | A filter that every element passes changes nothing. |

## Left out

- JSX rendering, CSS classes, icons and loading skeletons. These are presentation only.
- The windowing of the table by `@tanstack/react-virtual`. It is a rendering concern in a foreign library.
- The `alert` call and the `aria-live` announcement. They are UI side effects. The model keeps the refusal and the unchanged selection. `Selection.SelectedSatellites.ToggleSelection` returns the refusal as `alerted`.
- Calling `onSearch` is an effect on the parent component. It is modelled as the returned `Option`.
- How the page connects `onSearch` to its own `handleSearch` is not modelled; `Home.CommittedQueryIsStoredAsIs` relates the two.
- `services/api.ts` and the asynchronous loader with its loading and error state in `Home.tsx:31-52`. They are network I/O, JSON decoding and URL encoding, and a fetch whose responses may arrive out of order.
- `utils/selection.ts` and `pages/SelectedPage.tsx`. They depend on `localStorage` and `JSON.parse`.
- `App.tsx`. It is routing only.
- React's rendering cycle, memoisation and batching of state updates. Each handler is modelled as one state change on the current values.
- Unicode semantics of `trim`, `toLowerCase` and `toUpperCase`. The model handles ASCII whitespace (space, tab, line feed, vertical tab, form feed, carriage return) and ASCII letters only.
- The counters' accumulator is a plain JavaScript object. Keys that clash with the object's prototype, such as `__proto__`, are not modelled; the accumulator is a `map`.
- Filters.NormalizeOrbitCodes: its own contract does not state the order of the tokens for every input. Order is proved for braced lists of well-formed tokens by `Filters.NormalizeBraced`, and for single tokens by `Filters.NormalizeSingleToken`.
- Home.OrbitTokens: its own contract does not state the tokens' order. It is proved for single codes and braced pairs by `Home.SingleTokenUpper` and `Home.PairTokens`, and for all codes relative to the panel's normaliser by `Home.TokenisersAgree`.
