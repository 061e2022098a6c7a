/**
 * The text normalizer `clean_text` (main.py): a Unicode NFKD step followed by
 * `str.strip()`. NFKD depends on the Unicode data tables and is a parameter
 * here; the strip step is modelled exactly.
 */
module Text {

  /** The characters for which Python's `str.isspace` holds (U+0009 to
      U+000D, U+001C to U+0020, U+0085, U+00A0, U+1680, U+2000 to U+200A,
      U+2028, U+2029, U+202F, U+205F, U+3000); `str.strip()` with no
      argument removes exactly these from both ends. */
  predicate IsSpace(c: char) {
    || '\t' <= c <= '\r'
    || '\U{001C}' <= c <= ' '
    || c == '\U{0085}' || c == '\U{00A0}' || c == '\U{1680}'
    || '\U{2000}' <= c <= '\U{200A}'
    || c == '\U{2028}' || c == '\U{2029}' || c == '\U{202F}' || c == '\U{205F}' || c == '\U{3000}'
  }

  predicate AllSpace(s: string) {
    forall i :: 0 <= i < |s| ==> IsSpace(s[i])
  }

  /** No whitespace at either end: what `str.strip()` returns. */
  predicate IsStripped(s: string) {
    s == [] || (!IsSpace(s[0]) && !IsSpace(s[|s| - 1]))
  }

  /** `s` is `core`, starting at index `start`, with only whitespace
      before and after it. */
  predicate IsPaddingOf(s: string, core: string, start: int) {
    && 0 <= start && start + |core| <= |s|
    && (forall k :: 0 <= k < |core| ==> core[k] == s[start + k])
    && (forall k :: 0 <= k < start ==> IsSpace(s[k]))
    && (forall k :: start + |core| <= k < |s| ==> IsSpace(s[k]))
  }

  /** The first index from `i` on that does not hold whitespace, or `|s|`:
      where the left scan of `str.strip()` stops. */
  function LeftEnd(s: string, i: nat): (r: nat)
    requires i <= |s|
    ensures i <= r <= |s|
    ensures forall k :: i <= k < r ==> IsSpace(s[k])
    ensures r < |s| ==> !IsSpace(s[r])
    decreases |s| - i
  {
    if i < |s| && IsSpace(s[i]) then LeftEnd(s, i + 1) else i
  }

  /** Scanning left from `j`, never below `lo`: the end of the part that
      is kept, so that only whitespace lies between it and `j`. */
  function RightEnd(s: string, lo: nat, j: nat): (r: nat)
    requires lo <= j <= |s|
    ensures lo <= r <= j
    ensures forall k :: r <= k < j ==> IsSpace(s[k])
    ensures r > lo ==> !IsSpace(s[r - 1])
    decreases j
  {
    if j > lo && IsSpace(s[j - 1]) then RightEnd(s, lo, j - 1) else j
  }

  /** `str.strip()`: the result has no whitespace at either end and is
      what is left of `s` once whitespace is removed from both ends; it is
      "" exactly when `s` is all whitespace. */
  function Strip(s: string): (r: string)
    ensures IsStripped(r)
    ensures IsPaddingOf(s, r, LeftEnd(s, 0))
    ensures r == [] <==> AllSpace(s)
  {
    var i := LeftEnd(s, 0);
    s[i..RightEnd(s, i, |s|)]
  }

  /** Strip has one possible result: any stripped core of `s` that is
      surrounded only by whitespace is `Strip(s)`. */
  lemma StripUnique(s: string, core: string, start: int)
    requires IsStripped(core) && IsPaddingOf(s, core, start)
    ensures core == Strip(s)
  {
  }

  /** A string that is already stripped is left as it is. */
  lemma StripFixesStripped(s: string)
    requires IsStripped(s)
    ensures Strip(s) == s
  {
  }

  /** Stripping twice is stripping once. */
  lemma StripIdempotent(s: string)
    ensures Strip(Strip(s)) == Strip(s)
  {
  }

  /** `clean_text(text)`: normalize with `nfkd`, then strip. The result is
      the normalized text with whitespace removed from both ends, and has
      no whitespace at either end. */
  function CleanText(nfkd: string -> string, text: string): (r: string)
    ensures IsStripped(r)
    ensures IsPaddingOf(nfkd(text), r, LeftEnd(nfkd(text), 0))
    ensures r == [] <==> AllSpace(nfkd(text))
  {
    Strip(nfkd(text))
  }

  /** What NFKD (Unicode Standard Annex #15) guarantees that the model uses:
      every piece of a normalized string is itself normalized. (A string is
      in NFKD when it holds no decomposable character and its combining
      marks are in canonical order, both of which are local conditions.) */
  ghost predicate PiecesStayNormalized(nfkd: string -> string) {
    forall s, i, j :: 0 <= i <= j <= |nfkd(s)| ==> nfkd(nfkd(s)[i..j]) == nfkd(s)[i..j]
  }

  /** Cleaning twice is cleaning once, for any normalizer with that property. */
  lemma CleanTextIdempotent(nfkd: string -> string, text: string)
    requires PiecesStayNormalized(nfkd)
    ensures CleanText(nfkd, CleanText(nfkd, text)) == CleanText(nfkd, text)
  {
  }
}
