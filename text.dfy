/**
 * The few `str` operations of Rust's standard library that the receipt
 * parser uses: `char::is_whitespace`, `trim`, `split_whitespace().last()`
 * and collecting text nodes into one `String`.
 */
module Text {
  import opened Wrappers

  /** `char::is_whitespace`: the characters with the Unicode White_Space property. */
  predicate IsWhitespace(c: char)
  {
    ('\t' <= c <= '\r') || c == ' ' || c == '\U{85}' || c == '\U{A0}' || c == '\U{1680}'
    || ('\U{2000}' <= c <= '\U{200A}') || c == '\U{2028}' || c == '\U{2029}'
    || c == '\U{202F}' || c == '\U{205F}' || c == '\U{3000}'
  }

  predicate AllWhitespace(s: string)
  {
    forall i :: 0 <= i < |s| ==> IsWhitespace(s[i])
  }

  predicate NoWhitespace(s: string)
  {
    forall i :: 0 <= i < |s| ==> !IsWhitespace(s[i])
  }

  /** The first index at or after `i` that does not hold white space (or `|s|`). */
  function SkipWhitespace(s: string, i: nat): (n: nat)
    requires i <= |s|
    ensures i <= n <= |s|
    ensures forall m :: i <= m < n ==> IsWhitespace(s[m])
    ensures n == |s| || !IsWhitespace(s[n])
    decreases |s| - i
  {
    if i == |s| || !IsWhitespace(s[i]) then i else SkipWhitespace(s, i + 1)
  }

  /** Walking left from `j` but not past `lo`, the end of the text once trailing white space is dropped. */
  function TrimmedEnd(s: string, lo: nat, j: nat): (n: nat)
    requires lo <= j <= |s|
    ensures lo <= n <= j
    ensures forall m :: n <= m < j ==> IsWhitespace(s[m])
    ensures n == lo || !IsWhitespace(s[n - 1])
    decreases j
  {
    if j == lo || !IsWhitespace(s[j - 1]) then j else TrimmedEnd(s, lo, j - 1)
  }

  /** Walking left from `j`, the start of the run of non-white-space characters that ends at `j`. */
  function WordStart(s: string, j: nat): (n: nat)
    requires j <= |s|
    ensures n <= j
    ensures forall m :: n <= m < j ==> !IsWhitespace(s[m])
    ensures n == 0 || IsWhitespace(s[n - 1])
    decreases j
  {
    if j == 0 || IsWhitespace(s[j - 1]) then j else WordStart(s, j - 1)
  }

  /** `str::trim`: drop leading and trailing white space. */
  function Trim(s: string): (r: string)
    ensures exists a, b :: 0 <= a <= b <= |s| && r == s[a..b] && AllWhitespace(s[..a]) && AllWhitespace(s[b..])
    ensures r == [] || (!IsWhitespace(r[0]) && !IsWhitespace(r[|r| - 1]))
  {
    var a := SkipWhitespace(s, 0);
    var b := TrimmedEnd(s, a, |s|);
    assert AllWhitespace(s[..a]) && AllWhitespace(s[b..]);
    s[a..b]
  }

  /**
   * `s.split_whitespace().last()`: the last maximal run of non-white-space
   * characters, or `None` when the text is white space only.
   */
  function LastToken(s: string): (r: Option<string>)
    ensures r.None? <==> AllWhitespace(s)
    ensures r.Some? ==> r.value != [] && NoWhitespace(r.value)
    ensures r.Some? ==> exists a, b :: 0 <= a < b <= |s| && r.value == s[a..b]
                                      && (a == 0 || IsWhitespace(s[a - 1])) && AllWhitespace(s[b..])
  {
    var b := TrimmedEnd(s, 0, |s|);
    if b == 0 then None
    else
      var a := WordStart(s, b);
      assert AllWhitespace(s[b..]);
      Some(s[a..b])
  }

  /** Text that neither starts nor ends with white space is left as it is by `trim`. */
  lemma TrimKeepsTrimmed(s: string)
    requires s == [] || (!IsWhitespace(s[0]) && !IsWhitespace(s[|s| - 1]))
    ensures Trim(s) == s
  {
    var a := SkipWhitespace(s, 0);
    var b := TrimmedEnd(s, a, |s|);
    if s != [] {
      assert a == 0;
      assert b == |s|;
    }
    assert s[a..b] == s;
  }

  /** `trim` is idempotent. */
  lemma TrimIdempotent(s: string)
    ensures Trim(Trim(s)) == Trim(s)
  {
    TrimKeepsTrimmed(Trim(s));
  }

  /** A word after white space (or at the start) is the last word of the text. */
  lemma LastTokenOfWord(p: string, w: string)
    requires w != [] && NoWhitespace(w)
    requires p == [] || IsWhitespace(p[|p| - 1])
    ensures LastToken(p + w) == Some(w)
  {
    var s := p + w;
    assert !IsWhitespace(s[|s| - 1]) by { assert s[|s| - 1] == w[|w| - 1]; }
    var b := TrimmedEnd(s, 0, |s|);
    assert b == |s|;
    assert p != [] ==> s[|p| - 1] == p[|p| - 1];
    assert forall m :: |p| <= m < |s| ==> s[m] == w[m - |p|];
    assert WordStart(s, b) == |p|;
    assert s[|p|..|s|] == w;
  }

  /** `element.text().collect::<String>()`: the text nodes, concatenated in order. */
  function Concat(texts: seq<string>): (r: string)
    ensures texts != [] ==> r == texts[0] + Concat(texts[1..])
  {
    if texts == [] then []
    else
      assert |texts| > 1 ==> texts[..|texts| - 1][1..] == texts[1..][..|texts| - 2];
      Concat(texts[..|texts| - 1]) + texts[|texts| - 1]
  }
}
