/** The two fixed regular expressions PrefixHQ searches manifests with,
    `"appid"\s+"(\d+)"` and `"name"\s+"([^"]+)"`, as deterministic scanners.

    `MatchesAt` says declaratively what it means for a pattern to match at a
    position (with its group spanning `s[lo..hi]`); `Search` is the scanner, and
    the lemmas show that it returns the group of the leftmost match, as
    `re.search` does. Neither pattern can backtrack usefully: `\s+` and the group
    both stop at a quote, which neither of them accepts. */
module Patterns {
  import opened Wrappers
  import opened Text

  datatype Pattern = AppIdPattern | NamePattern

  /** The quoted key a pattern starts with. */
  function Key(p: Pattern): string {
    match p
    case AppIdPattern => "\"appid\""
    case NamePattern => "\"name\""
  }

  /** The class of the captured group: `\d` or `[^"]`. */
  function Group(p: Pattern): Class {
    match p
    case AppIdPattern => Digit
    case NamePattern => NotQuote
  }

  /** `p` matches `s` at `i` and its group is `s[lo..hi]`: the quoted key, one or
      more whitespace characters, a quote, one or more group characters, a quote. */
  ghost predicate MatchesAt(s: string, p: Pattern, i: int, lo: int, hi: int) {
    var after := i + |Key(p)|;
    && 0 <= i && after + 1 < lo && lo < hi < |s|
    && s[i..after] == Key(p)
    && (forall q :: after <= q < lo - 1 ==> IsSpace(s[q]))
    && s[lo - 1] == '"'
    && (forall q :: lo <= q < hi ==> InClass(s[q], Group(p)))
    && s[hi] == '"'
  }

  /** The match at `i` is the leftmost one. */
  ghost predicate IsFirstMatch(s: string, p: Pattern, i: int, lo: int, hi: int) {
    && MatchesAt(s, p, i, lo, hi)
    && forall j, lo', hi' :: 0 <= j < i ==> !MatchesAt(s, p, j, lo', hi')
  }

  /** Where a match was found: its start and the bounds of its group. */
  datatype Found = Found(start: nat, lo: nat, hi: nat)

  /** Tries `p` at position `i` only. */
  function MatchAt(s: string, p: Pattern, i: nat): (r: Option<(nat, nat)>)
    requires i <= |s|
    ensures r.Some? ==> MatchesAt(s, p, i, r.value.0, r.value.1)
    ensures r.None? ==> forall lo, hi :: !MatchesAt(s, p, i, lo, hi)
  {
    var after := i + |Key(p)|;
    if after > |s| || s[i..after] != Key(p) then None
    else
      var w := SkipWhile(s, after, Space);
      if w == after || w == |s| || s[w] != '"' then None
      else
        var lo := w + 1;
        var hi := SkipWhile(s, lo, Group(p));
        if hi == lo || hi == |s| || s[hi] != '"' then None
        else Some((lo, hi))
  }

  /** The leftmost match of `p` at or after `from`. */
  function Search(s: string, p: Pattern, from: nat): (r: Option<Found>)
    requires from <= |s| + 1
    ensures r.Some? ==> from <= r.value.start && MatchesAt(s, p, r.value.start, r.value.lo, r.value.hi)
    ensures r.Some? ==> forall j, lo, hi :: from <= j < r.value.start ==> !MatchesAt(s, p, j, lo, hi)
    ensures r.None? ==> forall j, lo, hi :: from <= j ==> !MatchesAt(s, p, j, lo, hi)
    decreases |s| + 1 - from
  {
    if from > |s| then None
    else match MatchAt(s, p, from)
      case Some((lo, hi)) => Some(Found(from, lo, hi))
      case None => Search(s, p, from + 1)
  }

  /** `re.search(p, s).group(1)`, or `None` when there is no match. */
  function FirstGroup(s: string, p: Pattern): (r: Option<string>)
    ensures r.Some? ==> |r.value| > 0 && forall k :: 0 <= k < |r.value| ==> InClass(r.value[k], Group(p))
  {
    match Search(s, p, 0)
    case None => None
    case Some(f) => Some(s[f.lo..f.hi])
  }

  /** A position fixes the whole match: whitespace and group both stop at a quote. */
  lemma MatchDeterminedByStart(s: string, p: Pattern, i: int, lo: int, hi: int, lo': int, hi': int)
    requires MatchesAt(s, p, i, lo, hi) && MatchesAt(s, p, i, lo', hi')
    ensures lo == lo' && hi == hi'
  {
  }

  /** Completeness: when there is a leftmost match, the scanner returns its group. */
  lemma FirstGroupOfFirstMatch(s: string, p: Pattern, i: int, lo: int, hi: int)
    requires IsFirstMatch(s, p, i, lo, hi)
    ensures FirstGroup(s, p) == Some(s[lo..hi])
  {
    var f := Search(s, p, 0).value;
    MatchDeterminedByStart(s, p, i, lo, hi, f.lo, f.hi);
  }

  /** Soundness: whatever the scanner returns is the group of the leftmost match. */
  lemma FirstGroupIsFirstMatch(s: string, p: Pattern)
    requires FirstGroup(s, p).Some?
    ensures exists i, lo, hi :: IsFirstMatch(s, p, i, lo, hi) && FirstGroup(s, p) == Some(s[lo..hi])
  {
    var f := Search(s, p, 0).value;
    assert IsFirstMatch(s, p, f.start, f.lo, f.hi);
  }

  /** The scanner finds nothing exactly when the pattern matches nowhere. */
  lemma FirstGroupNone(s: string, p: Pattern)
    ensures FirstGroup(s, p).None? <==> forall i, lo, hi :: !MatchesAt(s, p, i, lo, hi)
  {
    var r := Search(s, p, 0);
    if r.Some? {
      var f := r.value;
      assert MatchesAt(s, p, f.start, f.lo, f.hi);
    } else {
      forall i, lo, hi ensures !MatchesAt(s, p, i, lo, hi) {
        if i >= 0 {
          assert !MatchesAt(s, p, i, lo, hi);
        }
      }
    }
  }
}
