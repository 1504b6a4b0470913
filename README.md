# DicBar dictionary core in Dafny

DicBar is a macOS menu-bar English–Chinese dictionary. A read-only SQLite file bundled with
the app holds three tables:

- `words`: the headwords, with pronunciation, a concise definition and a JSON column of inflected forms.
- `definitions`: numbered senses of each headword.
- `comparisons`: usage notes that contrast a headword with a near-synonym.

This project models the core of the app:

- **`DatabaseService`** (`database_service.dfy`, module `Database`):
  - The service holds the connection `dbQueue`, which is `None` when the bundled file is missing or fails to open.
  - It answers four queries: prefix search, exact lookup, full-text search and the word count.
  - The tables are immutable sequences in storage order.
  - SQLite's `LIKE` is modelled exactly (module `Text`): `%` and `_` wildcards with ASCII case folding. `ORDER BY word` is a sort by lexicographic character order, and `LIMIT` is a cut.
  - A read that throws is a `readFails` parameter. The service catches it and degrades the result to `[]`, `None` or `0`.
- **The records** (`word.dfy`, module `Models`): `Word`, `Definition`, `Comparison` and `WordForms`.
  - `Word.forms` decodes the `forms_json` column through an abstract JSON decoder.
  - `WordForms.allForms` keeps the inflections that are present.
- **The word detail view** (`word_detail_view.dfy`, module `WordDetail`):
  - A class whose one piece of mutable state is the selected tab.
  - Its content switch, its tab bar with count badges, the numbering of definition cards, and the visibility of the forms menu.
  - `formsItems`, the (label, value) list the forms menu is built from, using the source's successive appends.
- **The search panel** (`search_panel_view.dfy`, module `SearchPanel`):
  - A class over `searchText`, `searchResults` and `selectedWord`.
  - It changes through typing, selecting a result, submitting, the clear button and the detail view's back button. Each transition calls the database model.
  - The invariant `Valid` says the listed results are those of a prefix search for the current text, and any open word is a record assembled from the tables.

`seqs.dfy` (filter, take, compact-map, subsequence) and `wrappers.dfy` (`Option`) are generic helpers.

## Behaviour of the code worth knowing

- `searchByPrefix` passes the caller's `limit` to SQL unchanged. SQLite reads a negative `LIMIT` as no limit (`Seqs.Take`), so a negative limit returns every match.
- The prefix is not escaped, so a typed `%` or `_` acts as a `LIKE` wildcard (`Database.WildcardsNotEscaped`). "Starts with the lower-cased prefix" holds only for prefixes free of those two characters (`Database.PatternIsPrefixTest`).
- Prefix search returns whole `Word` records. Their `definitions` and `comparisons` are empty, the defaults they are declared with (`Models.Fetched`).

## Model

| member | source | states |
|---|---|---|
| Models.Fetched | Sources/Models/Word.swift:6-25 | a record decoded from a `words` row keeps the row's five coded columns; `definitions` and `comparisons` are empty until a lookup fills them |
| Models.Forms | Sources/Models/Word.swift:28-31 | `forms` is nil when `formsJson` is nil, and otherwise is whatever the decoder yields, nil for a string that does not decode |
| Models.AllForms | Sources/Models/Word.swift:55-58 | `allForms` has at most seven entries; it is empty iff all seven fields are nil; a string is in it iff some field holds it |
| Models.AllFormsInFieldOrder | Sources/Models/Word.swift:55-58 | `allForms` is exactly the non-nil fields in the order plural, third person singular, past tense, past participle, present participle, comparative, superlative |
| Text.Lower | Sources/Services/DatabaseService.swift:37 | `lowercased()` keeps the length and maps each character independently: A–Z to a–z, everything else unchanged |
| Text.Like | Sources/Services/DatabaseService.swift:39 | SQLite's `LIKE` without an escape character: a lone `%` matches every word, and a word matching a pattern without wildcards has the pattern's length |
| Text.LikeExact | Sources/Services/DatabaseService.swift:39 | for a pattern without wildcards, a word matches iff it has the pattern's length and agrees with it character by character up to ASCII case |
| Text.LexLe | Sources/Services/DatabaseService.swift:40 | the order `ORDER BY word` sorts by: character-wise lexicographic, so every word sorts after each of its prefixes |
| Text.LikePrefix | Sources/Services/DatabaseService.swift:39 | for a pattern without `%` or `_`, `s LIKE p || '%'` holds iff `p` is a prefix of `s` up to ASCII case |
| Text.LexLeTotal | Sources/Services/DatabaseService.swift:40 | the `ORDER BY word` order is total |
| Text.LexLeTransitive | Sources/Services/DatabaseService.swift:40 | the `ORDER BY word` order is transitive |
| Text.LexLeAntisymmetric | Sources/Services/DatabaseService.swift:40 | two words each ordered before the other are equal |
| Seqs.Take | Sources/Services/DatabaseService.swift:41 | `LIMIT n` returns a prefix of the rows: the first `min(n, count)` rows when `n >= 0`, all of them when `n` is negative |
| Seqs.CompactMap | Sources/Models/Word.swift:57 | `compactMap { $0 }` keeps at most as many entries as it is given; it is empty iff every entry is nil; a value is in it iff some entry wraps it |
| Database.FetchAll | Sources/Services/DatabaseService.swift:42 | `fetchAll` yields one decoded record per table row, in table order |
| Database.SortByWord | Sources/Services/DatabaseService.swift:40 | `ORDER BY word` rearranges the rows: same rows, same multiplicities |
| Database.SortByWordSorted | Sources/Services/DatabaseService.swift:40 | the result of `ORDER BY word` is in ascending order of `word` |
| Database.Pattern | Sources/Services/DatabaseService.swift:37 | the `LIKE` pattern is the lower-cased prefix, one character per prefix character, followed by `%` |
| Database.Matching | Sources/Services/DatabaseService.swift:39 | the `LIKE` filter keeps exactly the rows whose word matches the pattern |
| Database.MatchingMultiplicity | Sources/Services/DatabaseService.swift:39 | the `LIKE` filter keeps each matching row exactly as often as the table holds it, and drops every other row |
| Database.SearchByPrefix | Sources/Services/DatabaseService.swift:32-49 | `[]` with no connection, an empty prefix or a failed read; at most `limit` rows; every row is a decoded table row whose word is `LIKE` the pattern; rows in ascending word order |
| Database.PatternIsPrefixTest | Sources/Services/DatabaseService.swift:37-39 | for a prefix free of `%` and `_`, a word matches iff its lower-cased form starts with the lower-cased prefix |
| Database.WildcardsNotEscaped | Sources/Services/DatabaseService.swift:37-39 | because the prefix is not escaped, "abc" matches the search for "a_" although it does not start with "a_" |
| Database.SearchByPrefixMatchesPrefix | Sources/Services/DatabaseService.swift:32-44 | for a prefix free of wildcards, every result's lower-cased word starts with the lower-cased prefix |
| Database.SearchByPrefixComplete | Sources/Services/DatabaseService.swift:38-42 | no matching row is skipped: with no limit or fewer than `limit` results every match is returned, and any match whose word sorts strictly before the last result's word is returned |
| Database.OrderedMatches | Sources/Services/DatabaseService.swift:38-42 | the first `limit` rows of the sorted matches are in word order and are all matching table rows |
| Database.SearchByPrefixWithinCount | Sources/Services/DatabaseService.swift:101-111 | a prefix search never returns more rows than `wordCount` reports |
| Database.FetchOne | Sources/Services/DatabaseService.swift:57-59 | `fetchOne` finds nothing iff no row has exactly that word; a found row is a table row with that word |
| Database.DefinitionsOf | Sources/Services/DatabaseService.swift:62-64 | exactly the `definitions` rows whose `word_id` is the id, each as often as the table holds it, in table order |
| Database.ComparisonsOf | Sources/Services/DatabaseService.swift:67-69 | exactly the `comparisons` rows whose `word_id` is the id, each as often as the table holds it, in table order |
| Database.FindWord | Sources/Services/DatabaseService.swift:52-77 | a record comes back iff there is a connection, the read succeeds and some row's word equals the lower-cased argument exactly; it is that row with its own definitions and comparisons |
| Database.FindWordIgnoresCase | Sources/Services/DatabaseService.swift:58 | looking up a word and looking up its lower-cased form give the same result |
| Database.SearchResultsResolve | Sources/Views/SearchPanelView.swift:142-149 | on a table of unique lower-case words, looking up the word of any prefix-search result finds that same row |
| Database.FullTextSearch | Sources/Services/DatabaseService.swift:80-98 | `[]` with no connection, an empty query or a failed read; at most `limit` rows; every row is a table row the engine matches against `query*` |
| Database.WordCount | Sources/Services/DatabaseService.swift:101-111 | the number of rows of `words`, or 0 with no connection or a failed read |
| Database.DatabaseService.constructor | Sources/Services/DatabaseService.swift:7-27 | without a bundled file the connection stays nil; otherwise it is what opening the file read-only yields |
| WordDetail.LabelledValues | Sources/Views/WordDetailView.swift:140-153 | the value column of a labelled list built from optional fields is the compact-map of those fields |
| WordDetail.LabelledLabels | Sources/Views/WordDetailView.swift:140-153 | the labels of such a list are a subsequence of the label list |
| WordDetail.LabelledInFieldOrder | Sources/Views/WordDetailView.swift:144-150 | the labelled forms list is one entry per non-nil field, in field order, each with its own fixed label |
| WordDetail.AppendIfPresent | Sources/Views/WordDetailView.swift:144 | one `if let` step appends the field's (label, value) entry when the field is set and nothing otherwise |
| WordDetail.FormsEntries | Sources/Views/WordDetailView.swift:144-152 | the seven successive appends build the labelled list; its values are `allForms`, its labels come in the fixed label order, and it is empty iff every field is nil |
| WordDetail.DefinitionCards | Sources/Views/WordDetailView.swift:178-179 | one card per definition, in retrieval order, numbered consecutively from the first number |
| WordDetail.WordDetailView.constructor | Sources/Views/WordDetailView.swift:3-7 | a new detail view opens on tab 0 |
| WordDetail.WordDetailView.SelectDefinitionsTab | Sources/Views/WordDetailView.swift:159-161 | the definitions tab button sets the selected tab to 0 |
| WordDetail.WordDetailView.SelectComparisonsTab | Sources/Views/WordDetailView.swift:163-165 | the comparisons tab button sets the selected tab to 1 |
| WordDetail.WordDetailView.Content | Sources/Views/WordDetailView.swift:25-32 | tab 0 shows the definitions numbered 1..n in order; tab 1 shows the comparisons, with the placeholder iff there are none (line 188); any other tab shows nothing |
| WordDetail.WordDetailView.TabBar | Sources/Views/WordDetailView.swift:157-168 | two tabs counting the definitions and the comparisons; a tab is selected iff the selected tab is its index; its count badge shows iff the count is positive (line 217) |
| WordDetail.WordDetailView.FormsMenuVisible | Sources/Views/WordDetailView.swift:61 | the forms menu shows iff the forms decode and at least one form is present |
| WordDetail.WordDetailView.FormsItems | Sources/Views/WordDetailView.swift:140-153 | `[]` when the forms are nil; otherwise one labelled entry per non-nil field in field order; the value column equals `allForms`; non-empty iff the forms menu is shown |
| SearchPanel.SearchPanelView.constructor | Sources/Views/SearchPanelView.swift:9-11 | the panel starts with empty text, no results and no open word |
| SearchPanel.SearchPanelView.PerformSearch | Sources/Views/SearchPanelView.swift:132-140 | an empty query clears the results; otherwise they become the prefix search for the query with limit 30, so there are at most 30 |
| SearchPanel.SearchPanelView.Type | Sources/Views/SearchPanelView.swift:55-57 | editing the text runs the search for the new text; setting the text it already holds changes nothing; the panel invariant is kept |
| SearchPanel.SearchPanelView.SelectWord | Sources/Views/SearchPanelView.swift:142-149 | the open word becomes the lookup of the chosen word's text when that lookup succeeds, and is unchanged otherwise |
| SearchPanel.SearchPanelView.Submit | Sources/Views/SearchPanelView.swift:58-62 | with results listed, return selects the first one; with none it changes nothing |
| SearchPanel.SearchPanelView.Clear | Sources/Views/SearchPanelView.swift:65-68 | the clear button empties the text and the results and leaves the open word as it is |
| SearchPanel.SearchPanelView.Back | Sources/Views/SearchPanelView.swift:25-29 | the back button closes the open word and leaves the text and results as they are |
| SearchPanel.SearchPanelView.ClearButtonVisible | Sources/Views/SearchPanelView.swift:64 | the clear button shows iff there is text |
| SearchPanel.SearchPanelView.Content | Sources/Views/SearchPanelView.swift:23-33 | the detail view iff a word is open; otherwise the prompt iff the text is empty, "not found" for that text iff there is text but no results, and the result list otherwise (lines 85-126) |
| SearchPanel.ListedResults | Sources/Views/SearchPanelView.swift:132-140 | in a consistent panel at most 30 results are listed, in word order, each starting with the typed text when it holds no wildcard |
| SearchPanel.SubmitOpensFirstResult | Sources/Views/SearchPanelView.swift:58-62 | on a table of unique lower-case words, with results listed and no failing read, the lookup that submit makes finds the first result's row |

## Left out

- Sources/App/AppDelegate.swift, Sources/App/DicBarApp.swift and Package.swift: the status item, popover, event monitor, focus notification, app entry point and build manifest are AppKit plumbing with no logic to model.
- Sources/Services/AudioService.swift: pronunciation playback is network and media I/O. The detail view's two sound buttons are left out with it.
- GRDB and SQLite internals: `Bundle.main.path`, `DatabaseQueue` and the read-only configuration. The bundled path and the opening of the file are constructor parameters (`openReadOnly`), and a throwing read is the `readFails` parameter.
- Database.FullTextSearch: FTS5 tokenisation, `MATCH` semantics and ranking are the engine's own. `MATCH` is an abstract predicate and results keep table order, so only the guards, the `query*` pattern and the limit are modelled.
- Models.Forms: `JSONDecoder` is a foreign library. It is a `string -> Option<WordForms>` parameter; a failed UTF-8 conversion is folded into the decoder's `None`.
- Text.Lower: Swift's `lowercased()` applies full Unicode case mapping. The model maps only ASCII A–Z, which is also the only folding SQLite's `LIKE` applies.
- Database.SortByWord: SQLite's default collation compares encoded bytes. The model compares characters (code points), which orders valid text the same way. Rows with equal words keep table order, where SQLite leaves their order open.
- Database.SearchByPrefix and Database.FullTextSearch: the Swift default `limit: Int = 20` is not modelled; every call passes a limit, and the one caller, the search panel, passes 30.
- Database.FetchOne: `fetchOne` without `ORDER BY` may return any matching row. The model returns the first one in table order, which matters only for a table with duplicate words.
- `Int`: limits, counts and tab numbers are unbounded integers. Swift's 64-bit overflow cannot arise at these sizes.
- SearchPanel.SearchPanelView: `isLoading` is declared but never used, and the focus state only moves the cursor. SwiftUI layout, styling, animation, hover state and `print` logging are not modelled.
- SearchPanel.SearchPanelView.Clear: setting the text to "" also fires `onChange`, whose search for "" clears the results again. The model applies the resulting state directly.
- The detail view's header (word, pronunciation, concise definition) and the cards' inner layout only display fields of the record.
