/** The quote record and the string handling the widget applies to user input:
    the whitespace trimming of JavaScript's String.prototype.trim. */
module QuoteText {

  /** One entry of the `quotes` array: `{ text, category }`. */
  datatype Quote = Quote(text: string, category: string)

  datatype Option<T> = None | Some(value: T)

  /** The characters `trim()` removes: ECMAScript WhiteSpace (tab, vertical tab,
      form feed, space, no-break space, byte-order mark and every other Unicode
      space separator) and LineTerminator (LF, CR, LS, PS). */
  predicate IsWhitespace(c: char)
  {
    || c == '\t' || c == '\n' || c == '\U{000B}' || c == '\U{000C}' || c == '\r'
    || c == ' ' || c == '\U{00A0}' || c == '\U{1680}'
    || ('\U{2000}' <= c <= '\U{200A}')
    || c == '\U{2028}' || c == '\U{2029}' || c == '\U{202F}' || c == '\U{205F}'
    || c == '\U{3000}' || c == '\U{FEFF}'
  }

  predicate AllWhitespace(s: string)
  {
    forall i :: 0 <= i < |s| ==> IsWhitespace(s[i])
  }

  /** `s` with its leading whitespace removed; a suffix of `s`. */
  function TrimStart(s: string): (r: string)
    ensures |r| <= |s| && r == s[|s| - |r|..]
    ensures r == [] || !IsWhitespace(r[0])
    ensures forall i :: 0 <= i < |s| - |r| ==> IsWhitespace(s[i])
  {
    if |s| > 0 && IsWhitespace(s[0]) then
      TrimStart(s[1..])
    else s
  }

  /** `s` with its trailing whitespace removed; a prefix of `s`. */
  function TrimEnd(s: string): (r: string)
    ensures |r| <= |s| && r == s[..|r|]
    ensures r == [] || !IsWhitespace(r[|r| - 1])
    ensures forall i :: |r| <= i < |s| ==> IsWhitespace(s[i])
  {
    if |s| > 0 && IsWhitespace(s[|s| - 1]) then
      var r := TrimEnd(s[..|s| - 1]);
      assert s[..|s| - 1][..|r|] == s[..|r|];
      r
    else s
  }

  /** Every character of `s` at a position in `[lo, hi)` is whitespace. */
  predicate WhitespaceBetween(s: string, lo: int, hi: int)
  {
    forall i :: 0 <= lo <= i < hi <= |s| ==> IsWhitespace(s[i])
  }

  /** `s.trim()`: the infix `s[k..k + |r|]` left once whitespace is cut
      from both ends. It neither starts nor ends with whitespace, and every
      character cut off, before `k` or after the infix, is whitespace. */
  function Trim(s: string): (r: string)
    ensures exists k ::
      && 0 <= k <= |s| - |r| && r == s[k..k + |r|]
      && WhitespaceBetween(s, 0, k) && WhitespaceBetween(s, k + |r|, |s|)
    ensures r == [] || (!IsWhitespace(r[0]) && !IsWhitespace(r[|r| - 1]))
  {
    var u := TrimStart(s);
    var r := TrimEnd(u);
    var k := |s| - |u|;
    assert WhitespaceBetween(s, 0, k);
    assert WhitespaceBetween(s, k + |r|, |s|) by {
      forall i | k + |r| <= i < |s| ensures IsWhitespace(s[i]) {
        assert s[i] == u[i - k];
      }
    }
    assert r == s[k..k + |r|];
    assert r == [] || r[0] == u[0];
    r
  }

  /** `s.trim() === ""`, the test `addQuote` applies to both inputs: true
      exactly when every character of `s` is whitespace, so "", "   " and
      "\t\n" are refused alike. */
  predicate IsBlank(s: string): (b: bool)
    ensures b <==> AllWhitespace(s)
  {
    var u := TrimStart(s);
    assert !AllWhitespace(s) ==> u != [] by {
      if u == [] {
        assert s[..|s|] == s;
      }
    }
    Trim(s) == ""
  }
}
