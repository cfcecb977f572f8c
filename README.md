# Random quote generator: the quote collection

A Dafny model of the data logic in `dom-manipulation/script.js`, a browser
widget that shows a random quote, filters by category, adds quotes, and keeps
quotes and the last filter in browser storage. The model covers:

- the module-level `quotes` array and the storage entries it is mirrored to
  (localStorage `quotes` and `lastSelectedCategory`, sessionStorage
  `lastViewedQuote`), as the class `Store.QuoteStore`;
- the category filter and random pick of `filterQuotes`, where the sentinel
  `"all"` selects every quote and any other value keeps exactly the quotes of
  that category (case-sensitive) in their original order;
- the distinct category list of `populateCategories`
  (`[...new Set(quotes.map(q => q.category))]`);
- the validation in `addQuote`: input whose text or category is blank after
  JavaScript `trim()` is refused. Otherwise the untrimmed pair is appended;
- the unchecked bulk append of `importFromJsonFile`;
- the storage fallbacks of `loadQuotes` and `loadLastSelectedCategory`.

Modules: `QuoteText` (the `Quote` record and `trim()`), `QuoteQueries` (the
pure computations: filter, random index, distinct categories) and `Store`
(the class with the mutable state).

Storage entries are held already parsed (`Option<seq<Quote>>`,
`Option<string>`, `Option<Quote>`), so JSON serialisation is taken to round-trip.
A saved array serialises to a non-empty string, which is truthy, so the
`if (savedQuotes)` test of `loadQuotes` reduces to "an entry is stored".
`Math.random()` is the parameter `random` of `FilterQuotes`, with
`0 <= random < 1`. The value chosen in the category menu is its parameter
`selected`.

## Model

| member | source | states |
|---|---|---|
| `QuoteText.TrimStart` | dom-manipulation/script.js:141 | the result is a suffix of the input that does not start with whitespace, and everything cut off is whitespace |
| `QuoteText.TrimEnd` | dom-manipulation/script.js:141 | the result is a prefix of the input that does not end with whitespace, and everything cut off is whitespace |
| `QuoteText.Trim` | dom-manipulation/script.js:141 | `s.trim()` is an infix of `s` that neither starts nor ends with whitespace, and every character cut off before or after it is whitespace |
| `QuoteText.IsBlank` | dom-manipulation/script.js:141 | `s.trim() === ""` holds exactly when every character of `s` is ECMAScript whitespace or a line terminator |
| `QuoteQueries.FilterCategory` | dom-manipulation/script.js:83 | a quote is in the filtered list iff it is in the collection and its category equals the selected one; the list is no longer than the collection |
| `QuoteQueries.FilteredQuotes` | dom-manipulation/script.js:79-84 | the sentinel "all" gives back the whole collection unchanged; any other value gives exactly the quotes of that category |
| `QuoteQueries.FilterIsSubsequence` | dom-manipulation/script.js:83 | the filtered list is an order-preserving subsequence of the collection |
| `QuoteQueries.FilterKeepsEveryMatch` | dom-manipulation/script.js:83 | each quote of the category occurs in the filtered list exactly as often as in the collection, and any other quote never |
| `QuoteQueries.ListedCategorySelectsQuotes` | dom-manipulation/script.js:52-84 | every category offered in the menu selects at least one quote, and all of them have that category; a category spelled "all" selects the whole collection |
| `QuoteQueries.RandomIndex` | dom-manipulation/script.js:95-96 | `Math.floor(random * length)` with `0 <= random < 1` and a non-empty list is a valid index of that list |
| `QuoteQueries.Categories` | dom-manipulation/script.js:52 | `quotes.map(q => q.category)`: same length, position by position the quote's category |
| `QuoteQueries.Distinct` | dom-manipulation/script.js:52 | the `Set`-built list has no duplicates and holds exactly the values of the input |
| `QuoteQueries.DistinctFirstOccurrenceOrder` | dom-manipulation/script.js:52 | the `Set`-built list is ordered by first occurrence in the input |
| `QuoteQueries.UniqueCategories` | dom-manipulation/script.js:52 | no category is listed twice, and a category is listed iff some quote has it |
| `QuoteQueries.UniqueCategoriesFirstOccurrence` | dom-manipulation/script.js:52 | the categories are listed in order of their first occurrence in the collection |
| `QuoteQueries.IndexOf` | dom-manipulation/script.js:52 | the position found holds the value and no earlier position does (the first-occurrence reference for the `Set` order) |
| `Store.QuoteStore.constructor` | dom-manipulation/script.js:2-26 | the page starts with the six default quotes, replaced by the stored collection when one is stored |
| `Store.QuoteStore.SaveQuotes` | dom-manipulation/script.js:16-18 | the stored copy becomes the current collection |
| `Store.QuoteStore.LoadQuotes` | dom-manipulation/script.js:21-26 | the collection becomes the stored one if one is stored, and otherwise stays as it was |
| `Store.QuoteStore.LoadLastSelectedCategory` | dom-manipulation/script.js:39-41 | the stored filter when it is present and not "", otherwise "all"; never "" |
| `Store.QuoteStore.MenuOptions` | dom-manipulation/script.js:52-63 | the menu holds the sentinel "all" first, then each category present in the collection, once |
| `Store.QuoteStore.FilterQuotes` | dom-manipulation/script.js:71-99 | records the selection; on an empty filtered list shows nothing and leaves the last-viewed quote alone; otherwise shows and records the filtered quote at the random index, which is in the collection and has the selected category |
| `Store.QuoteStore.AddQuote` | dom-manipulation/script.js:136-156 | accepted iff neither the text nor the category is blank after trimming; on refusal nothing changes; on success the untrimmed quote is appended after the unchanged earlier quotes, the length grows by one and the collection is saved |
| `Store.QuoteStore.ImportQuotes` | dom-manipulation/script.js:194-197 | every imported record is appended in order after the existing quotes, with no deduplication; the length grows by the number imported and the collection is saved |

## Left out

- DOM work: rendering the quote and the menu, `createAddQuoteForm`, the event listener wiring, and clearing the input fields. These are presentation only.
- The capitalised menu labels of line 61. They are cosmetic and depend on Unicode `toUpperCase`.
- `alert` notifications. They are UI side effects.
- `exportToJsonFile`. It is a browser file download (Blob, object URL, synthetic click).
- `FileReader` and its asynchronous `onload`. `ImportQuotes` is the synchronous append that runs once the records are parsed.
- `JSON.stringify` and `JSON.parse`. Storage holds parsed values. A `JSON.parse` that throws on corrupt data (lines 24 and 195) is not modelled, and neither are records of the wrong shape or a non-array import. A spread of such a value would throw or push its characters.
- `localStorage` and `sessionStorage` as browser APIs. They are fields of the class, and a stored value that was written by something other than this script is not modelled.
- `Store.QuoteStore.FilterQuotes`: the selected category is read from the DOM menu in the source, and here it is a parameter. What the browser does when `populateCategories` (lines 66-67) restores a stored category that is not among the options is not modelled.
- `QuoteQueries.RandomIndex`: `Math.random() * length` is computed in exact reals. The floating-point rounding of the product is not modelled.
- `Store.QuoteStore.AddQuote` and `Store.QuoteStore.ImportQuotes`: the re-render that follows the append (`populateCategories`, `showRandomQuote`) is not part of these methods. It corresponds to separate calls of `MenuOptions` and `FilterQuotes`.
- `showRandomQuote` only calls `filterQuotes`, so it is covered by `FilterQuotes`.
- String comparison follows Dafny's Unicode characters, not JavaScript's UTF-16 code units. Strings with unpaired surrogates are not modelled.
- `Store.QuoteStore.constructor`: it covers the defaults and `loadQuotes()` at start-up (lines 2-9 and 244). The start-up calls of `populateCategories()` and `showRandomQuote()` (lines 247-253) are separate calls of `MenuOptions` and `FilterQuotes`. Through `filterQuotes`, those calls overwrite the stored last category and, usually, the last viewed quote.
