/** The read-only computations over the quote collection: the category filter
    of `filterQuotes`, the random pick among its results, and the distinct
    category list of `populateCategories`. */
module QuoteQueries {
  import opened QuoteText

  /** The sentinel value of the category menu that selects every quote. */
  const AllCategories: string := "all"

  // ---------------------------------------------------------------------
  // Sequences: subsequence, first occurrence, duplicates
  // ---------------------------------------------------------------------

  /** `a` can be obtained from `b` by deleting elements, keeping the order of
      the rest (matched greedily from the front). */
  predicate IsSubsequence<T(==)>(a: seq<T>, b: seq<T>)
    decreases |b|
  {
    if a == [] then true
    else if b == [] then false
    else if a[0] == b[0] then IsSubsequence(a[1..], b[1..])
    else IsSubsequence(a, b[1..])
  }

  predicate NoDuplicates<T(==)>(s: seq<T>)
  {
    forall i, j :: 0 <= i < j < |s| ==> s[i] != s[j]
  }

  /** `s.indexOf(x)`: the position of the first occurrence of `x` in `s`. */
  function IndexOf<T(==)>(s: seq<T>, x: T): (i: nat)
    requires x in s
    ensures i < |s| && s[i] == x && x !in s[..i]
  {
    if s[0] == x then 0
    else
      var i := 1 + IndexOf(s[1..], x);
      assert s[..i] == [s[0]] + s[1..][..i - 1];
      i
  }

  // ---------------------------------------------------------------------
  // Category filter (filterQuotes)
  // ---------------------------------------------------------------------

  /** `quotes.filter(quote => quote.category === category)`. */
  function FilterCategory(quotes: seq<Quote>, category: string): (r: seq<Quote>)
    ensures |r| <= |quotes|
    ensures forall q :: q in r <==> q in quotes && q.category == category
  {
    if quotes == [] then []
    else
      var rest := FilterCategory(quotes[1..], category);
      assert quotes == [quotes[0]] + quotes[1..];
      if quotes[0].category == category then [quotes[0]] + rest else rest
  }

  /** The list `filterQuotes` draws from: the whole collection for the
      sentinel "all", otherwise the quotes of exactly that category. */
  function FilteredQuotes(quotes: seq<Quote>, selected: string): (r: seq<Quote>)
    ensures selected == AllCategories ==> r == quotes
    ensures selected != AllCategories ==>
      forall q :: q in r <==> q in quotes && q.category == selected
  {
    if selected == AllCategories then quotes else FilterCategory(quotes, selected)
  }

  /** The filter keeps the surviving quotes in their original order. */
  lemma {:induction false} FilterIsSubsequence(quotes: seq<Quote>, category: string)
    ensures IsSubsequence(FilterCategory(quotes, category), quotes)
  {
    if quotes != [] {
      FilterIsSubsequence(quotes[1..], category);
      var rest := FilterCategory(quotes[1..], category);
      if quotes[0].category != category {
        SubsequenceSkip(rest, quotes);
      }
    }
  }

  /** A subsequence of the tail is a subsequence of the whole. */
  lemma {:induction false} SubsequenceSkip<T>(a: seq<T>, b: seq<T>)
    requires b != [] && IsSubsequence(a, b[1..])
    ensures IsSubsequence(a, b)
    decreases |b|, 0
  {
    if a != [] && a[0] == b[0] {
      SubsequenceTail(a, b[1..]);
    }
  }

  /** Dropping the first element of a subsequence keeps it a subsequence. */
  lemma {:induction false} SubsequenceTail<T>(a: seq<T>, b: seq<T>)
    requires a != [] && IsSubsequence(a, b)
    ensures IsSubsequence(a[1..], b)
    decreases |b|, 1
  {
    assert b != [];
    if a[0] == b[0] {
      SubsequenceSkip(a[1..], b);
    } else {
      SubsequenceTail(a, b[1..]);
      SubsequenceSkip(a[1..], b);
    }
  }

  /** The filter neither drops nor duplicates a matching quote: each quote of
      the category occurs in the result as often as in the collection, and
      every other quote not at all. */
  lemma {:induction false} FilterKeepsEveryMatch(quotes: seq<Quote>, category: string, q: Quote)
    ensures multiset(FilterCategory(quotes, category))[q]
      == if q.category == category then multiset(quotes)[q] else 0
  {
    if quotes != [] {
      FilterKeepsEveryMatch(quotes[1..], category, q);
      assert quotes == [quotes[0]] + quotes[1..];
      assert multiset(quotes) == multiset{quotes[0]} + multiset(quotes[1..]);
    }
  }

  /** Every category the menu offers, other than one spelled like the
      sentinel, selects at least one quote; a quote whose category is "all"
      cannot be selected alone, because that option selects everything. */
  lemma ListedCategorySelectsQuotes(quotes: seq<Quote>, category: string)
    requires category in UniqueCategories(quotes)
    ensures category != AllCategories ==>
      FilteredQuotes(quotes, category) != [] &&
      forall q :: q in FilteredQuotes(quotes, category) ==> q.category == category
    ensures category == AllCategories ==> FilteredQuotes(quotes, category) == quotes
  {
  }

  // ---------------------------------------------------------------------
  // Random pick (Math.floor(Math.random() * filteredQuotes.length))
  // ---------------------------------------------------------------------

  /** `Math.floor(random * length)` for a draw `0 <= random < 1`: always a
      valid index of a non-empty list. */
  function RandomIndex(random: real, length: nat): (i: nat)
    requires 0.0 <= random < 1.0
    requires length > 0
    ensures i < length
  {
    var x := random * length as real;
    assert 0.0 <= x < length as real by {
      assert random * length as real < 1.0 * length as real;
    }
    x.Floor
  }

  // ---------------------------------------------------------------------
  // Distinct categories (populateCategories)
  // ---------------------------------------------------------------------

  /** `quotes.map(quote => quote.category)`. */
  function Categories(quotes: seq<Quote>): (r: seq<string>)
    ensures |r| == |quotes|
    ensures forall i :: 0 <= i < |quotes| ==> r[i] == quotes[i].category
  {
    seq(|quotes|, i requires 0 <= i < |quotes| => quotes[i].category)
  }

  /** `[...new Set(s)]`: the elements of `s` in the order a `Set` receives
      them, each kept at its first insertion only. */
  function Distinct(s: seq<string>): (r: seq<string>)
    ensures NoDuplicates(r)
    ensures forall x :: x in r <==> x in s
  {
    if s == [] then []
    else
      var prefix := s[..|s| - 1];
      var d := Distinct(prefix);
      assert s == prefix + [s[|s| - 1]];
      if s[|s| - 1] in d then d else d + [s[|s| - 1]]
  }

  /** The categories without duplicates, in order of first occurrence. */
  function UniqueCategories(quotes: seq<Quote>): (r: seq<string>)
    ensures NoDuplicates(r)
    ensures forall c :: c in r <==> exists q :: q in quotes && q.category == c
  {
    var r := Distinct(Categories(quotes));
    assert forall c :: c in Categories(quotes) ==> exists q :: q in quotes && q.category == c;
    assert forall q :: q in quotes ==> q.category in Categories(quotes);
    r
  }

  /** The first occurrence of an element of `p` is the same in any extension
      of `p`. */
  lemma {:induction false} IndexOfExtend<T>(p: seq<T>, q: seq<T>, x: T)
    requires x in p
    ensures IndexOf(p + q, x) == IndexOf(p, x)
  {
    if p[0] != x {
      IndexOfExtend(p[1..], q, x);
      assert (p + q)[1..] == p[1..] + q;
    }
  }

  /** The distinct list is ordered by first occurrence in the input: a value
      listed earlier first appears earlier. */
  lemma {:induction false} DistinctFirstOccurrenceOrder(s: seq<string>, i: nat, j: nat)
    requires i < j < |Distinct(s)|
    ensures IndexOf(s, Distinct(s)[i]) < IndexOf(s, Distinct(s)[j])
  {
    var prefix := s[..|s| - 1];
    var last := s[|s| - 1];
    var d := Distinct(prefix);
    assert s == prefix + [last];
    if last in d {
      DistinctFirstOccurrenceOrder(prefix, i, j);
      IndexOfExtend(prefix, [last], d[i]);
      IndexOfExtend(prefix, [last], d[j]);
    } else {
      IndexOfExtend(prefix, [last], d[i]);
      if j < |d| {
        DistinctFirstOccurrenceOrder(prefix, i, j);
        IndexOfExtend(prefix, [last], d[j]);
      } else {
        assert Distinct(s)[j] == last && last !in prefix;
        assert IndexOf(s, last) == |prefix|;
      }
    }
  }

  /** The category menu lists categories in order of first occurrence in the
      collection: a category listed earlier first appears earlier. */
  lemma UniqueCategoriesFirstOccurrence(quotes: seq<Quote>, i: nat, j: nat)
    requires i < j < |UniqueCategories(quotes)|
    ensures IndexOf(Categories(quotes), UniqueCategories(quotes)[i])
      < IndexOf(Categories(quotes), UniqueCategories(quotes)[j])
  {
    DistinctFirstOccurrenceOrder(Categories(quotes), i, j);
  }
}
