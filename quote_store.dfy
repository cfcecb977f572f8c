/** The widget's mutable state: the module-level `quotes` array and the
    browser-storage entries the script reads and writes, with the operations
    that change them. */
module Store {
  import opened QuoteText
  import opened QuoteQueries

  /** The collection the page starts with before anything is loaded. */
  const DefaultQuotes: seq<Quote> := [
    Quote("The only way to do great work is to love what you do.", "inspiration"),
    Quote("Life is what happens when you're busy making other plans.", "life"),
    Quote("The future belongs to those who believe in the beauty of their dreams.", "motivation"),
    Quote("It is during our darkest moments that we must focus to see the light.", "inspiration"),
    Quote("Be yourself; everyone else is already taken.", "wisdom"),
    Quote("In three words I can sum up everything I've learned about life: it goes on.", "life")
  ]

  class QuoteStore {
    /** The in-memory `quotes` array. */
    var quotes: seq<Quote>
    /** localStorage "quotes": the collection last saved, already parsed. */
    var savedQuotes: Option<seq<Quote>>
    /** localStorage "lastSelectedCategory". */
    var lastSelectedCategory: Option<string>
    /** sessionStorage "lastViewedQuote", already parsed. */
    var lastViewedQuote: Option<Quote>

    /** The default collection, replaced by the saved one when there is one:
        `loadQuotes()` at start-up (line 244). */
    constructor (saved: Option<seq<Quote>>, lastCategory: Option<string>, lastViewed: Option<Quote>)
      ensures savedQuotes == saved && lastSelectedCategory == lastCategory
      ensures lastViewedQuote == lastViewed
      ensures quotes == if saved.Some? then saved.value else DefaultQuotes
    {
      quotes := DefaultQuotes;
      savedQuotes := saved;
      lastSelectedCategory := lastCategory;
      lastViewedQuote := lastViewed;
      new;
      LoadQuotes();
    }

    /** `saveQuotes`: the stored copy becomes the current collection. */
    method SaveQuotes()
      modifies this`savedQuotes
      ensures savedQuotes == Some(quotes)
    {
      savedQuotes := Some(quotes);
    }

    /** `loadQuotes`: replace the collection by the stored one when one is
        stored; otherwise leave it as it is. */
    method LoadQuotes()
      modifies this`quotes
      ensures quotes == if savedQuotes.Some? then savedQuotes.value else old(quotes)
    {
      if savedQuotes.Some? {
        quotes := savedQuotes.value;
      }
    }

    /** `loadLastSelectedCategory`: the stored filter, unless it is missing
        or the empty string (both falsy), in which case the sentinel "all";
        never the empty string. */
    function LoadLastSelectedCategory(): (c: string)
      reads this
      ensures c != ""
      ensures lastSelectedCategory.Some? && lastSelectedCategory.value != "" ==>
        c == lastSelectedCategory.value
      ensures lastSelectedCategory.None? || lastSelectedCategory.value == "" ==>
        c == AllCategories
    {
      if lastSelectedCategory.Some? && lastSelectedCategory.value != "" then
        lastSelectedCategory.value
      else
        AllCategories
    }

    /** The option values `populateCategories` puts in the category menu:
        the sentinel, then each category present, once, in order of first
        occurrence (`UniqueCategoriesFirstOccurrence`). */
    function MenuOptions(): (options: seq<string>)
      reads this
      ensures |options| >= 1 && options[0] == AllCategories
      ensures forall c :: c in options[1..] <==> exists q :: q in quotes && q.category == c
      ensures NoDuplicates(options[1..])
    {
      [AllCategories] + UniqueCategories(quotes)
    }

    /** `filterQuotes` for the category `selected` chosen in the menu and the
        draw `random` of `Math.random()`: records the selection, then shows
        and records a quote picked from the filtered list, or nothing when
        that list is empty. */
    method FilterQuotes(selected: string, random: real) returns (shown: Option<Quote>)
      requires 0.0 <= random < 1.0
      modifies this`lastSelectedCategory, this`lastViewedQuote
      ensures lastSelectedCategory == Some(selected)
      ensures var filtered := FilteredQuotes(quotes, selected);
        if filtered == [] then
          shown == None && lastViewedQuote == old(lastViewedQuote)
        else
          shown == Some(filtered[RandomIndex(random, |filtered|)]) && lastViewedQuote == shown
      ensures shown.Some? ==> shown.value in quotes
      ensures shown.Some? && selected != AllCategories ==> shown.value.category == selected
      ensures shown.None? <==> FilteredQuotes(quotes, selected) == []
    {
      lastSelectedCategory := Some(selected);
      var filtered := FilteredQuotes(quotes, selected);
      if |filtered| == 0 {
        return None;
      }
      var randomQuote := filtered[RandomIndex(random, |filtered|)];
      lastViewedQuote := Some(randomQuote);
      shown := Some(randomQuote);
    }

    /** `addQuote`: a quote whose text or category trims to "" is refused
        and nothing changes; otherwise the untrimmed pair is appended and the
        collection saved. */
    method AddQuote(text: string, category: string) returns (added: bool)
      modifies this`quotes, this`savedQuotes
      ensures added <==> !IsBlank(text) && !IsBlank(category)
      ensures !added ==> quotes == old(quotes) && savedQuotes == old(savedQuotes)
      ensures added ==> quotes == old(quotes) + [Quote(text, category)]
      ensures added ==> |quotes| == |old(quotes)| + 1
      ensures added ==> savedQuotes == Some(quotes)
    {
      if IsBlank(text) || IsBlank(category) {
        return false;
      }
      quotes := quotes + [Quote(text, category)];
      SaveQuotes();
      added := true;
    }

    /** The `onload` step of `importFromJsonFile`: every parsed record is
        appended, in order, without validation or deduplication, and the
        collection saved. */
    method ImportQuotes(imported: seq<Quote>)
      modifies this`quotes, this`savedQuotes
      ensures quotes == old(quotes) + imported
      ensures |quotes| == |old(quotes)| + |imported|
      ensures multiset(quotes) == multiset(old(quotes)) + multiset(imported)
      ensures savedQuotes == Some(quotes)
    {
      quotes := quotes + imported;
      SaveQuotes();
    }
  }
}
