/**
 * The two BeautifulSoup queries the scraper relies on, over a parsed page
 * given as its elements in document order: `soup.find(name, class_=...)`
 * and `tag.get_text(separator, strip=True)`. Parsing itself is outside the
 * model; an element carries its class list, its attributes and the text
 * fragments below it.
 */
module Dom {
  import opened Wrappers
  import opened Text

  datatype Element = Element(
    name: string,
    classes: seq<string>,
    attrs: map<string, string>,
    strings: seq<string>)

  /** A parsed page: every element, in document order. */
  type Document = seq<Element>

  /** The filter of `find(name)` and of `find(name, class_=cls)`. */
  predicate Matches(e: Element, name: string, cls: Option<string>) {
    e.name == name && (cls.None? || cls.value in e.classes)
  }

  predicate IsFirstMatch(doc: Document, name: string, cls: Option<string>, i: int) {
    0 <= i < |doc| && Matches(doc[i], name, cls)
    && forall j :: 0 <= j < i ==> !Matches(doc[j], name, cls)
  }

  /** Search from index `from` on. */
  function FindFrom(doc: Document, name: string, cls: Option<string>, from: nat): (r: Option<nat>)
    requires from <= |doc|
    ensures r.Some? ==> from <= r.value < |doc| && Matches(doc[r.value], name, cls)
    ensures forall j :: from <= j < |doc| && (r.None? || j < r.value) ==> !Matches(doc[j], name, cls)
    decreases |doc| - from
  {
    if from == |doc| then None
    else if Matches(doc[from], name, cls) then Some(from)
    else FindFrom(doc, name, cls, from + 1)
  }

  /** `soup.find(...)`: the first matching element in document order, or
      None when no element matches. */
  function Find(doc: Document, name: string, cls: Option<string>): (r: Option<Element>)
    ensures r.None? <==> forall j :: 0 <= j < |doc| ==> !Matches(doc[j], name, cls)
    ensures r.Some? ==> exists i :: IsFirstMatch(doc, name, cls, i) && doc[i] == r.value
  {
    match FindFrom(doc, name, cls, 0)
    case None => None
    case Some(i) => assert IsFirstMatch(doc, name, cls, i); Some(doc[i])
  }

  /** Find returns the first match, whichever index that is. */
  lemma FindIsFirstMatch(doc: Document, name: string, cls: Option<string>, i: int)
    requires IsFirstMatch(doc, name, cls, i)
    ensures Find(doc, name, cls) == Some(doc[i])
  {
  }

  /** The fragments `get_text(strip=True)` keeps: each one stripped, the
      blank ones dropped, order kept. */
  function StrippedStrings(strings: seq<string>): (r: seq<string>)
    ensures forall k :: 0 <= k < |r| ==> r[k] != [] && IsStripped(r[k])
  {
    if strings == [] then []
    else
      var head := Strip(strings[0]);
      var rest := StrippedStrings(strings[1..]);
      if head == [] then rest else [head] + rest
  }

  /** Every fragment strips to "". */
  predicate AllBlank(strings: seq<string>) {
    forall k :: 0 <= k < |strings| ==> Strip(strings[k]) == []
  }

  lemma AllBlankCons(strings: seq<string>)
    requires strings != []
    ensures AllBlank(strings) <==> Strip(strings[0]) == [] && AllBlank(strings[1..])
  {
  }

  /** No fragment is kept exactly when all of them are blank. */
  lemma {:induction false} StrippedStringsEmpty(strings: seq<string>)
    ensures StrippedStrings(strings) == [] <==> AllBlank(strings)
  {
    if strings != [] {
      StrippedStringsEmpty(strings[1..]);
      AllBlankCons(strings);
    }
  }

  /** `sep.join(parts)`. */
  function Join(sep: string, parts: seq<string>): string {
    if parts == [] then ""
    else if |parts| == 1 then parts[0]
    else parts[0] + sep + Join(sep, parts[1..])
  }

  /** Joining non-blank stripped pieces, with any separator, leaves no
      whitespace at either end, and gives "" only for no pieces. */
  lemma {:induction false} JoinStripped(sep: string, parts: seq<string>)
    requires forall k :: 0 <= k < |parts| ==> parts[k] != [] && IsStripped(parts[k])
    ensures IsStripped(Join(sep, parts))
    ensures Join(sep, parts) == [] <==> parts == []
  {
    if |parts| > 1 {
      var tail := Join(sep, parts[1..]);
      JoinStripped(sep, parts[1..]);
      var r := parts[0] + sep + tail;
      assert r[0] == parts[0][0];
      assert r[|r| - 1] == tail[|tail| - 1];
    }
  }

  /** `tag.get_text(separator=sep, strip=True)`: no whitespace at either end;
      "" exactly when every text fragment of the tag is blank. */
  function GetText(e: Element, sep: string): (r: string)
    ensures IsStripped(r)
    ensures r == [] <==> AllBlank(e.strings)
  {
    JoinStripped(sep, StrippedStrings(e.strings));
    StrippedStringsEmpty(e.strings);
    Join(sep, StrippedStrings(e.strings))
  }

  /** Two non-blank fragments are stripped and glued with `sep`. */
  lemma TwoFragments(e: Element, sep: string, x: string, y: string)
    requires e.strings == [x, y] && Strip(x) != [] && Strip(y) != []
    ensures GetText(e, sep) == Strip(x) + sep + Strip(y)
  {
    var a, b := Strip(x), Strip(y);
    assert e.strings[1..] == [y] && e.strings[1..][1..] == [];
    assert StrippedStrings([y]) == [b];
    assert StrippedStrings(e.strings) == [a, b];
    assert [a, b][1..] == [b];
    assert Join(sep, [a, b]) == a + sep + b;
  }

  /** The separator decides how the kept fragments are glued: fragments
      " a " and "b" give "ab" with "" (as for the description) and "a b"
      with " " (as for the transcript). */
  lemma SeparatorExample(e: Element)
    requires e.strings == [" a ", "b"]
    ensures GetText(e, "") == "ab"
    ensures GetText(e, " ") == "a b"
  {
    StripUnique(" a ", "a", 1);
    StripUnique("b", "b", 0);
    TwoFragments(e, "", " a ", "b");
    TwoFragments(e, " ", " a ", "b");
  }
}
