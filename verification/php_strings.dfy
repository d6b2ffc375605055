/**
 * The character classes and string functions of PHP and PCRE that the generator relies on:
 * `\s`, `\w`, the case-insensitive `/i` comparison, `strtolower`, `str_replace("_", "", ...)`,
 * `trim($s, ' ,')`, and PHP's truthiness of strings. All of them work on ASCII only, as PCRE
 * does in its default (non-UTF) mode and as `strtolower` does in the "C" locale.
 */
module PhpStrings {
  import opened Wrappers

  /** PCRE `\s`: space, tab, line feed, vertical tab, form feed, carriage return. */
  predicate IsSpace(c: char) {
    c == ' ' || c == '\t' || c == '\n' || c == '\U{000B}' || c == '\U{000C}' || c == '\r'
  }

  /** PCRE `\w`: ASCII letters, digits and the underscore. */
  predicate IsWordChar(c: char) {
    ('a' <= c <= 'z') || ('A' <= c <= 'Z') || ('0' <= c <= '9') || c == '_'
  }

  /** The characters `trim($s, ' ,')` removes. */
  predicate IsTrimChar(c: char) {
    c == ' ' || c == ','
  }

  function ToLower(c: char): char {
    if 'A' <= c <= 'Z' then (c as int + 32) as char else c
  }

  /** `strtolower`. */
  function Lower(s: string): (r: string)
    ensures |r| == |s|
    ensures forall i :: 0 <= i < |s| ==> r[i] == ToLower(s[i])
  {
    if s == [] then [] else [ToLower(s[0])] + Lower(s[1..])
  }

  /** Equality under PCRE's `/i` flag: same length, same letters up to case. */
  predicate EqualsIgnoreCase(a: string, b: string) {
    |a| == |b| && forall k :: 0 <= k < |a| ==> ToLower(a[k]) == ToLower(b[k])
  }

  /** Whether `w` occurs in `s` at index `i`, ignoring case. */
  predicate OccursAtIgnoreCase(s: string, w: string, i: nat) {
    i + |w| <= |s| && forall k :: 0 <= k < |w| ==> ToLower(s[i + k]) == ToLower(w[k])
  }

  /** Whether `w` occurs in `s`, ignoring case. */
  predicate ContainsIgnoreCase(s: string, w: string) {
    exists i: nat | i <= |s| :: OccursAtIgnoreCase(s, w, i)
  }

  /** `str_replace("_", "", s)`. */
  function RemoveUnderscores(s: string): (r: string)
    ensures '_' !in r
    ensures forall c :: c != '_' ==> (c in r <==> c in s)
  {
    if s == [] then []
    else if s[0] == '_' then RemoveUnderscores(s[1..])
    else [s[0]] + RemoveUnderscores(s[1..])
  }

  /** PHP truthiness of a string: only "" and "0" are false. */
  predicate PhpTruthy(s: string) {
    s != "" && s != "0"
  }

  /** PHP's `empty()` on a string. */
  predicate PhpEmpty(s: string) {
    !PhpTruthy(s)
  }

  /**
   * The end of the longest run, starting at `i`, of characters satisfying `p`:
   * what a greedy `\s*`, `\s+` or `\w*` consumes.
   */
  function SkipWhile(s: string, i: nat, p: char -> bool): (j: nat)
    requires i <= |s|
    ensures i <= j <= |s|
    ensures forall k :: i <= k < j ==> p(s[k])
    ensures j == |s| || !p(s[j])
    decreases |s| - i
  {
    if i == |s| || !p(s[i]) then i else SkipWhile(s, i + 1, p)
  }

  /** A maximal run is unique: any `j` that ends a run of `p` starting at `i` is the one `SkipWhile` finds. */
  lemma SkipWhileUnique(s: string, i: nat, p: char -> bool, j: nat)
    requires i <= j <= |s|
    requires forall k :: i <= k < j ==> p(s[k])
    requires j == |s| || !p(s[j])
    ensures SkipWhile(s, i, p) == j
  {
  }

  /** The index of the last occurrence of `c` in `s` (PCRE's greedy `.*` before a literal `c`). */
  function LastIndexOf(s: string, c: char): (r: Option<nat>)
    ensures r.Some? ==> r.value < |s| && s[r.value] == c && forall k :: r.value < k < |s| ==> s[k] != c
    ensures r.None? <==> forall k :: 0 <= k < |s| ==> s[k] != c
  {
    if s == [] then None
    else if s[|s| - 1] == c then Some(|s| - 1)
    else
      var r := LastIndexOf(s[..|s| - 1], c);
      assert s == s[..|s| - 1] + [s[|s| - 1]];
      r
  }

  /** The end of `s` once the trailing run of `trim` characters (not reaching below `lo`) is cut. */
  function TrimEnd(s: string, lo: nat): (j: nat)
    requires lo <= |s|
    ensures lo <= j <= |s|
    ensures forall k :: j <= k < |s| ==> IsTrimChar(s[k])
    ensures j == lo || !IsTrimChar(s[j - 1])
    decreases |s| - lo
  {
    if |s| == lo || !IsTrimChar(s[|s| - 1]) then |s|
    else
      var s' := s[..|s| - 1];
      var j := TrimEnd(s', lo);
      assert forall k :: j <= k < |s'| ==> s[k] == s'[k];
      j
  }

  /**
   * `trim($s, ' ,')`: `s` without its leading and trailing spaces and commas. The result is
   * a slice of `s`, everything cut from either side is a space or a comma, and the result
   * neither starts nor ends with one.
   */
  function Trim(s: string): (r: string)
    ensures r == [] || (!IsTrimChar(r[0]) && !IsTrimChar(r[|r| - 1]))
    ensures exists i: nat :: IsTrimmedSliceAt(s, r, i)
  {
    var i := SkipWhile(s, 0, IsTrimChar);
    var j := TrimEnd(s, i);
    assert i < j ==> !IsTrimChar(s[i]);
    assert IsTrimmedSliceAt(s, s[i..j], i);
    s[i..j]
  }

  /** `r` is the slice of `s` at `i` and everything of `s` around it is a space or a comma. */
  predicate IsTrimmedSliceAt(s: string, r: string, i: nat) {
    && i + |r| <= |s|
    && r == s[i..i + |r|]
    && (forall k :: 0 <= k < i ==> IsTrimChar(s[k]))
    && (forall k :: i + |r| <= k < |s| ==> IsTrimChar(s[k]))
  }
}
