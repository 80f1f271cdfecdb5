/** Character classes and the whitespace stripping that PrefixHQ relies on:
    Python's `\s`, `\d`, `[^"]`, `str.isdigit()` and `str.strip()`. */
module Text {

  /** Python's whitespace (`str.isspace()`, also what `\s` and `str.strip()` use on text). */
  predicate IsSpace(c: char) {
    || ('\t' <= c <= '\r')                   // tab, line feed, vertical tab, form feed, carriage return
    || ('\U{1C}' <= c <= '\U{1F}')           // file, group, record and unit separators
    || c == ' '
    || c == '\U{85}' || c == '\U{A0}' || c == '\U{1680}'
    || ('\U{2000}' <= c <= '\U{200A}')
    || c == '\U{2028}' || c == '\U{2029}' || c == '\U{202F}' || c == '\U{205F}' || c == '\U{3000}'
  }

  /** A decimal digit (ASCII only, see README). */
  predicate IsDigit(c: char) {
    '0' <= c <= '9'
  }

  /** `s.isdigit()`: non-empty and made of digits only. */
  predicate IsDigitString(s: string) {
    |s| > 0 && forall k :: 0 <= k < |s| ==> IsDigit(s[k])
  }

  /** The character classes the two manifest patterns are built from. */
  datatype Class = Space | Digit | NotQuote

  predicate InClass(c: char, k: Class) {
    match k
    case Space => IsSpace(c)
    case Digit => IsDigit(c)
    case NotQuote => c != '"'
  }

  /** End of the longest run of class-`k` characters that starts at `j`. */
  function SkipWhile(s: string, j: nat, k: Class): (r: nat)
    requires j <= |s|
    ensures j <= r <= |s|
    ensures forall q :: j <= q < r ==> InClass(s[q], k)
    ensures r == |s| || !InClass(s[r], k)
    decreases |s| - j
  {
    if j < |s| && InClass(s[j], k) then SkipWhile(s, j + 1, k) else j
  }

  /** Start of the longest run of whitespace that ends at `j` and does not reach below `lo`. */
  function SkipSpaceBack(s: string, lo: nat, j: nat): (r: nat)
    requires lo <= j <= |s|
    ensures lo <= r <= j
    ensures forall q :: r <= q < j ==> IsSpace(s[q])
    ensures r == lo || !IsSpace(s[r - 1])
    decreases j
  {
    if lo < j && IsSpace(s[j - 1]) then SkipSpaceBack(s, lo, j - 1) else j
  }

  /** `s.strip()`: `s` without its leading and trailing whitespace. */
  function Strip(s: string): (r: string)
    ensures |r| <= |s|
    ensures r == [] <==> AllSpace(s)
    ensures r != [] ==> !IsSpace(r[0]) && !IsSpace(r[|r| - 1])
  {
    var lo := SkipWhile(s, 0, Space);
    var hi := SkipSpaceBack(s, lo, |s|);
    assert lo < hi ==> s[lo..hi][0] == s[lo] && s[lo..hi][hi - lo - 1] == s[hi - 1];
    s[lo..hi]
  }

  predicate AllSpace(s: string) {
    forall k :: 0 <= k < |s| ==> IsSpace(s[k])
  }

  /** Strip removes exactly the whitespace padding around a text that neither
      starts nor ends with whitespace: this characterises it completely. */
  lemma StripPadding(left: string, t: string, right: string)
    requires AllSpace(left) && AllSpace(right)
    requires t == [] || (!IsSpace(t[0]) && !IsSpace(t[|t| - 1]))
    ensures Strip(left + t + right) == t
  {
    var s := left + t + right;
    var lo := SkipWhile(s, 0, Space);
    if t == [] {
      assert s == left + right;
      assert AllSpace(s);
      assert lo == |s|;
    } else {
      assert s[|left|] == t[0];
      assert lo == |left|;
      var hi := SkipSpaceBack(s, lo, |s|);
      assert s[|left| + |t| - 1] == t[|t| - 1];
      assert hi == |left| + |t|;
      assert s[lo..hi] == t;
    }
  }

  /** Stripping twice is stripping once. */
  lemma StripIdempotent(s: string)
    ensures Strip(Strip(s)) == Strip(s)
  {
    var r := Strip(s);
    StripPadding([], r, []);
    assert [] + r + [] == r;
  }
}
