/**
 * `scrape_cluster_data` (main.py): one GET of a cluster page, then three
 * independent lookups on the parsed page, each replaced by the sentinel
 * "N/A" when its element is absent. The network is an outcome given as
 * input: a response with its status code and parsed page, or a
 * `requests.RequestException` raised by `requests.get` itself.
 */
module Scraper {
  import opened Wrappers
  import opened Text
  import opened Dom

  /** The sentinel for a field that could not be extracted. */
  const NotAvailable: string := "N/A"

  datatype FetchOutcome =
    | Response(statusCode: int, page: Document)
    | RequestFailed  // connection error, timeout, invalid URL, ...

  /** `response.raise_for_status()` raises `HTTPError`, a
      `RequestException`, for client (4xx) and server (5xx) errors only. */
  predicate RaisesForStatus(statusCode: int) {
    400 <= statusCode < 600
  }

  /** The fetch ends in the `except requests.RequestException` branch. */
  predicate FetchFails(fetch: FetchOutcome) {
    fetch.RequestFailed? || RaisesForStatus(fetch.statusCode)
  }

  /** What a call returns, or the `KeyError` that `video_tag["src"]` raises
      for a `<video>` without `src`; it is not a `RequestException`, so it
      leaves the function. */
  datatype ScrapeOutcome =
    | Scraped(description: string, videoUrl: string, transcript: string)
    | SrcKeyError

  function DescriptionTag(page: Document): Option<Element> {
    Find(page, "div", Some("video-description"))
  }

  function VideoTag(page: Document): Option<Element> {
    Find(page, "video", None)
  }

  function TranscriptTag(page: Document): Option<Element> {
    Find(page, "div", Some("video-transcript"))
  }

  /** A text field: the cleaned text of the tag found, or "N/A" when the
      lookup found nothing. */
  function TextField(tag: Option<Element>, sep: string, nfkd: string -> string): (r: string)
    ensures tag.None? ==> r == NotAvailable
    ensures tag.Some? ==> IsStripped(r) && (r == [] <==> AllSpace(nfkd(GetText(tag.value, sep))))
  {
    if tag.Some? then CleanText(nfkd, GetText(tag.value, sep)) else NotAvailable
  }

  function ScrapeClusterData(fetch: FetchOutcome, nfkd: string -> string): (r: ScrapeOutcome)
    ensures FetchFails(fetch) ==> r == Scraped(NotAvailable, NotAvailable, NotAvailable)
    ensures r.SrcKeyError? <==>
      !FetchFails(fetch) && VideoTag(fetch.page).Some? && "src" !in VideoTag(fetch.page).value.attrs
  {
    if FetchFails(fetch) then Scraped(NotAvailable, NotAvailable, NotAvailable)
    else
      var page := fetch.page;
      var videoTag := VideoTag(page);
      if videoTag.Some? && "src" !in videoTag.value.attrs then SrcKeyError
      else
        Scraped(
          TextField(DescriptionTag(page), "", nfkd),
          if videoTag.Some? then videoTag.value.attrs["src"] else NotAvailable,
          TextField(TranscriptTag(page), " ", nfkd))
  }

  /** The description: "N/A" when no `div.video-description` is on the page,
      otherwise the cleaned text of the first one, whatever the other two
      lookups find. */
  lemma DescriptionField(statusCode: int, page: Document, nfkd: string -> string)
    requires !RaisesForStatus(statusCode)
    requires ScrapeClusterData(Response(statusCode, page), nfkd).Scraped?
    ensures var r := ScrapeClusterData(Response(statusCode, page), nfkd);
      && ((forall j :: 0 <= j < |page| ==> !Matches(page[j], "div", Some("video-description")))
              ==> r.description == NotAvailable)
      && (forall i :: IsFirstMatch(page, "div", Some("video-description"), i)
              ==> r.description == CleanText(nfkd, GetText(page[i], "")))
  {
    forall i | IsFirstMatch(page, "div", Some("video-description"), i)
      ensures DescriptionTag(page) == Some(page[i])
    {
      FindIsFirstMatch(page, "div", Some("video-description"), i);
    }
  }

  /** The transcript: the same rule for `div.video-transcript`, with the
      text fragments joined by single spaces. */
  lemma TranscriptField(statusCode: int, page: Document, nfkd: string -> string)
    requires !RaisesForStatus(statusCode)
    requires ScrapeClusterData(Response(statusCode, page), nfkd).Scraped?
    ensures var r := ScrapeClusterData(Response(statusCode, page), nfkd);
      && ((forall j :: 0 <= j < |page| ==> !Matches(page[j], "div", Some("video-transcript")))
              ==> r.transcript == NotAvailable)
      && (forall i :: IsFirstMatch(page, "div", Some("video-transcript"), i)
              ==> r.transcript == CleanText(nfkd, GetText(page[i], " ")))
  {
    forall i | IsFirstMatch(page, "div", Some("video-transcript"), i)
      ensures TranscriptTag(page) == Some(page[i])
    {
      FindIsFirstMatch(page, "div", Some("video-transcript"), i);
    }
  }

  /** The video URL: "N/A" when the page has no `<video>`, otherwise the
      first one's `src`, taken verbatim (not cleaned); a first `<video>`
      without `src` raises instead. */
  lemma VideoUrlField(statusCode: int, page: Document, nfkd: string -> string)
    requires !RaisesForStatus(statusCode)
    ensures var r := ScrapeClusterData(Response(statusCode, page), nfkd);
      && ((forall j :: 0 <= j < |page| ==> !Matches(page[j], "video", None))
              ==> r.Scraped? && r.videoUrl == NotAvailable)
      && (forall i :: IsFirstMatch(page, "video", None, i) && "src" in page[i].attrs
              ==> r.Scraped? && r.videoUrl == page[i].attrs["src"])
      && (forall i :: IsFirstMatch(page, "video", None, i) && "src" !in page[i].attrs
              ==> r.SrcKeyError?)
  {
    forall i | IsFirstMatch(page, "video", None, i)
      ensures VideoTag(page) == Some(page[i])
    {
      FindIsFirstMatch(page, "video", None, i);
    }
  }

  /** A description element that is present but holds only blank text
      gives "", not "N/A" (with a normalizer that maps "" to ""). */
  lemma BlankDescriptionIsEmpty(statusCode: int, page: Document, nfkd: string -> string, i: int)
    requires !RaisesForStatus(statusCode) && nfkd("") == ""
    requires ScrapeClusterData(Response(statusCode, page), nfkd).Scraped?
    requires IsFirstMatch(page, "div", Some("video-description"), i)
    requires forall k :: 0 <= k < |page[i].strings| ==> AllSpace(page[i].strings[k])
    ensures ScrapeClusterData(Response(statusCode, page), nfkd).description == ""
  {
  }

  /** An HTTP 404 answer: all three fields are "N/A". */
  lemma NotFoundIsAllNotAvailable(page: Document, nfkd: string -> string)
    ensures ScrapeClusterData(Response(404, page), nfkd) == Scraped("N/A", "N/A", "N/A")
  {
  }

  /** A redirect status is not an error for `raise_for_status`: the page is
      still read. */
  lemma RedirectStatusIsRead(page: Document, nfkd: string -> string)
    requires VideoTag(page).None?
    ensures ScrapeClusterData(Response(302, page), nfkd).Scraped?
    ensures ScrapeClusterData(Response(302, page), nfkd).videoUrl == NotAvailable
  {
  }

  /** A found tag whose only fragment needs no cleaning gives that fragment. */
  lemma SingleFragmentText(e: Element, text: string, sep: string, nfkd: string -> string)
    requires e.strings == [text] && text != [] && IsStripped(text) && nfkd(text) == text
    ensures TextField(Some(e), sep, nfkd) == text
  {
    StripFixesStripped(text);
    assert e.strings[1..] == [];
    assert StrippedStrings(e.strings) == [text];
  }

  /** On that page each lookup finds its own element. */
  lemma ExamplePageLookups(page: Document, description: string, src: string, transcript: string)
    requires |page| == 3
    requires page[0] == Element("div", ["video-description"], map[], [description])
    requires page[1] == Element("video", [], map["src" := src], [])
    requires page[2] == Element("div", ["video-transcript"], map[], [transcript])
    ensures DescriptionTag(page) == Some(page[0])
    ensures VideoTag(page) == Some(page[1])
    ensures TranscriptTag(page) == Some(page[2])
  {
  }

  /** "N/A" does not mean that the element was absent: a present element
      whose only text is "N/A" gives the same value as a missing one. */
  lemma PresentNotAvailableText(e: Element, sep: string, nfkd: string -> string)
    requires e.strings == [NotAvailable] && nfkd(NotAvailable) == NotAvailable
    ensures TextField(Some(e), sep, nfkd) == TextField(None, sep, nfkd)
  {
    SingleFragmentText(e, NotAvailable, sep, nfkd);
  }

  /** A page holding one description, one video with a `src` and one
      transcript, each with a single fragment that needs no cleaning, gives
      those three values (as a page with "Hello", "http://x/v.mp4" and
      "a b" does). */
  lemma ExamplePage(nfkd: string -> string, page: Document, description: string, src: string, transcript: string)
    requires description != [] && IsStripped(description) && nfkd(description) == description
    requires transcript != [] && IsStripped(transcript) && nfkd(transcript) == transcript
    requires |page| == 3
    requires page[0] == Element("div", ["video-description"], map[], [description])
    requires page[1] == Element("video", [], map["src" := src], [])
    requires page[2] == Element("div", ["video-transcript"], map[], [transcript])
    ensures ScrapeClusterData(Response(200, page), nfkd) == Scraped(description, src, transcript)
  {
    ExamplePageLookups(page, description, src, transcript);
    SingleFragmentText(page[0], description, "", nfkd);
    SingleFragmentText(page[2], transcript, " ", nfkd);
  }
}
