# Cluster video scraper: a Dafny model

A verified model of the scraping script `main.py`. The script reads rows naming
"clusters" and their overview-page URLs. It fetches each page and extracts three
fields: the description, the video URL and the transcript. It puts the sentinel
`"N/A"` for a field it cannot find and collects one record per usable row.

The model has five modules:

- `Wrappers` (`wrappers.dfy`): `Option`, which stands for Python's `None` and for values that may be missing.
- `Text` (`text.dfy`): `clean_text`. Its `str.strip()` is modelled exactly. `Strip` scans from the left, then from the right without passing the left end, as CPython does. Whitespace is the set of characters for which Python's `str.isspace` holds. The NFKD step is a function parameter `nfkd`.
- `Dom` (`dom.dfy`): the two BeautifulSoup operations the script uses, over a page given as its elements in document order.
  - `Find` returns the first element with the wanted tag name (and class, when one is asked for), or `None`.
  - `GetText` is `get_text(separator=sep, strip=True)`. It strips every text fragment, drops the blank ones and joins the rest with `sep`.
- `Scraper` (`scraper.dfy`): `scrape_cluster_data`. The network is an input of type `FetchOutcome`: either a response (status code and parsed page) or a `RequestException` raised by `requests.get`.
  - `raise_for_status` raises only for status codes 400 to 599.
  - A first `<video>` without `src` gives `SrcKeyError`. This is the `KeyError` that `video_tag["src"]` raises. It is not a `RequestException`, so the `except` clause does not catch it.
- `Pipeline` (`pipeline.dfy`): the row loop of `main`, as the method `CollectClusterData`.
  - A row is a `map<string, Option<string>>`, as `csv.DictReader` produces it.
  - The name and URL are resolved with `dict.get` fallbacks.
  - A row is skipped when either value is `None` or `""`.
  - Every other row is scraped and appended, in input order.
  - A `SrcKeyError` ends the run at that row: nothing in `main` catches it, so no output file is written.

The model follows what the code does, including where that differs from what the script's purpose suggests:

- The fallback column (`Cluster Name`, `Cluster URL`) is consulted only when the primary column is absent from the row. An empty `Cluster` cell does not fall back; it makes the row be skipped (`EmptyClusterCellIsSkipped`).
- An element that is present but has no text gives `""`, not `"N/A"` (`BlankDescriptionIsEmpty`). So a scraped field is not always a non-empty string or `"N/A"`.
- A `<video>` without `src` does not give `"N/A"`. It raises, and that aborts the whole run (`VideoUrlField`, `CollectClusterData`).
- `"N/A"` does not mean that an element was absent. A present element whose cleaned text is `"N/A"`, or a `<video>` whose `src` is `"N/A"`, gives the same value (`PresentNotAvailableText`, `VideoUrlField`).
- The description's fragments are joined with no separator, so `<p>Hello</p><p>world</p>` gives `"Helloworld"`. Only the transcript's fragments are joined with spaces (`SeparatorExample`).
- Not every non-2xx status is a fetch failure. A final 1xx or 3xx response is parsed like a 2xx one (`RedirectStatusIsRead`).

## Model

| member | source | states |
|---|---|---|
| `Text.IsSpace` | main.py:21 | Holds exactly for the characters Python's `str.isspace` accepts: U+0009 to U+000D, U+001C to U+0020, U+0085, U+00A0, U+1680, U+2000 to U+200A, U+2028, U+2029, U+202F, U+205F and U+3000. |
| `Text.Strip` | main.py:21 | The result has no whitespace at either end. It is `s` with only whitespace removed before and after it. It is `""` exactly when `s` is all whitespace. |
| `Text.StripUnique` | main.py:21 | Any stripped piece of `s` that has only whitespace around it equals `Strip(s)`, so the contract of `Strip` fixes its result. |
| `Text.StripFixesStripped` | main.py:21 | A string with no whitespace at either end is returned unchanged. |
| `Text.StripIdempotent` | main.py:21 | Stripping twice gives the same result as stripping once. |
| `Text.CleanText` | main.py:14-21 | The cleaned text is the normalized text with whitespace removed from both ends, so it has no whitespace at either end. It is `""` exactly when the normalized text is all whitespace. |
| `Text.CleanTextIdempotent` | main.py:14-21 | `clean_text(clean_text(t)) == clean_text(t)` for every normalizer under which pieces of normalized strings stay normalized, as NFKD guarantees. |
| `Dom.Find` | main.py:49-61 | `None` exactly when no element matches the query. Otherwise the result is the matching element that comes first in document order. |
| `Dom.FindIsFirstMatch` | main.py:49-61 | Whenever index `i` holds the first match, `Find` returns the element at `i`. |
| `Dom.StrippedStrings` | main.py:51-63 | The fragments `get_text(strip=True)` keeps: each fragment stripped, the blank ones dropped, in order. Every kept fragment is non-empty and has no whitespace at either end. |
| `Dom.Join` | main.py:51-63 | `sep.join(parts)`: the parts in order with `sep` between neighbours, `""` for no parts. |
| `Dom.JoinStripped` | main.py:51-63 | Joining non-blank stripped fragments with any separator leaves no whitespace at either end. The result is `""` only when there are no fragments. |
| `Dom.GetText` | main.py:51-63 | The extracted text has no whitespace at either end. It is `""` exactly when every text fragment of the tag is blank. |
| `Dom.TwoFragments` | main.py:51-63 | Two non-blank fragments give the first stripped, then `sep`, then the second stripped. |
| `Dom.SeparatorExample` | main.py:51-63 | Fragments `" a "` and `"b"` give `"ab"` with the description's separator `""` and `"a b"` with the transcript's separator `" "`. |
| `Scraper.RaisesForStatus` | main.py:45 | `raise_for_status` raises for status codes 400 to 599 and for no other code. |
| `Scraper.FetchFails` | main.py:42-72 | The `except requests.RequestException` branch is taken when `requests.get` raises or `raise_for_status` raises. |
| `Scraper.TextField` | main.py:50-66 | A text field is `"N/A"` when its tag was not found. Otherwise it is the cleaned text of the tag, which has no whitespace at either end and is `""` exactly when the normalized text is all whitespace. |
| `Scraper.ScrapeClusterData` | main.py:42-72 | A `RequestException`, or a 4xx/5xx status through `raise_for_status`, gives `("N/A", "N/A", "N/A")`. The `KeyError` happens exactly when the fetch succeeds and the first `<video>` has no `src`. |
| `Scraper.DescriptionField` | main.py:49-54 | The description is `"N/A"` when no `div.video-description` is on the page. Otherwise it is the cleaned text of the first such div, joined without a separator. It depends on nothing else on the page. |
| `Scraper.VideoUrlField` | main.py:57-58 | The video URL is `"N/A"` when there is no `<video>`. It is the first `<video>`'s `src`, verbatim, when that attribute is there. The call raises when it is missing. |
| `Scraper.TranscriptField` | main.py:61-66 | The transcript is `"N/A"` when no `div.video-transcript` is on the page. Otherwise it is the cleaned text of the first such div, with fragments joined by single spaces. |
| `Scraper.BlankDescriptionIsEmpty` | main.py:50-54 | A description div whose text fragments are all whitespace gives `""`, not `"N/A"`. |
| `Scraper.PresentNotAvailableText` | main.py:50-66 | A present element whose only text is `"N/A"` gives the same field value as a missing element. |
| `Scraper.NotFoundIsAllNotAvailable` | main.py:70-72 | An HTTP 404 response gives `("N/A", "N/A", "N/A")`, whatever the page holds. |
| `Scraper.RedirectStatusIsRead` | main.py:45 | `raise_for_status` does not reject a 302 response, so its page is read. A page without `<video>` then gives video URL `"N/A"`. |
| `Scraper.ExamplePage` | main.py:49-68 | A 200 page with one description div, one `<video src=...>` and one transcript div, each with one clean fragment, gives exactly those three values. |
| `Pipeline.Get` | main.py:97-100 | `row.get(key, default)`: the cell when the key is in the row, otherwise the default. |
| `Pipeline.ClusterName` | main.py:97-99 | A resolved name is always the cell of `Cluster`, or, when `Cluster` is absent, the cell of `Cluster Name`. |
| `Pipeline.ClusterUrl` | main.py:100 | A resolved URL is always the cell of `URL`, or, when `URL` is absent, the cell of `Cluster URL`. |
| `Pipeline.Truthy` | main.py:102 | A cell is true in Python exactly when it is neither `None` nor `""`. |
| `Pipeline.Selected` | main.py:102-104 | A row gets past the check only when its resolved name and URL are both present and non-empty. |
| `Pipeline.ClusterNameResolution` | main.py:97-99 | The name is `row["Cluster"]` whenever that key is present, even if its cell is empty or `None`. `Cluster Name` is used only when `Cluster` is absent. With neither key the name is `None`. |
| `Pipeline.ClusterUrlResolution` | main.py:100 | The same rule for `URL` and its fallback `Cluster URL`. |
| `Pipeline.EmptyClusterCellIsSkipped` | main.py:97-104 | A present but empty or `None` `Cluster` cell makes the row be skipped, whatever `Cluster Name` holds. |
| `Pipeline.Kept` | main.py:102-104 | The kept rows are at most as many as the input rows, and each of them has a non-empty name and a non-empty URL. |
| `Pipeline.KeptPlusSkipped` | main.py:95-104 | Kept rows plus skipped rows make up the input: their counts add up to the number of rows. |
| `Pipeline.KeptIsOrderedSelection` | main.py:95-117 | The kept rows are exactly the selected input rows, in input order. The k-th kept row is the row at the k-th selected index. The indices increase. An index is selected if and only if its row has a non-empty name and URL. |
| `Pipeline.FailedFetchRecord` | main.py:107-117 | A kept row whose fetch fails still gets a record. The record carries the resolved name and `"N/A"` in all three scraped fields. |
| `Pipeline.CollectClusterData` | main.py:83-117 | The loop completes if and only if no kept row's page raises the `KeyError`. Then there is one record per kept row, in order: `len(input) - len(skipped)` records, each holding the row's resolved name and exactly the triple scraped from its resolved URL. Otherwise the run aborts at the first row that raises. |

## Left out

- HTTP: `requests.get`, the `User-Agent` header and the 10-second timeout (main.py:38-44). The model takes the outcome of each fetch as an input function `web` from URL to outcome. This assumes that two fetches of the same URL give the same outcome.
- HTML parsing, `BeautifulSoup(response.content, "html.parser")` (main.py:46). A page is given already parsed, as its elements in document order. Each element carries its tag name, class list, attributes and text fragments.
- Class matching: `Dom.Find` matches a class when it is one of the element's classes. BeautifulSoup also matches a `class_` string against the whole class attribute, and that case is not modelled.
- Unicode NFKD normalization (main.py:19, Unicode Standard Annex #15) needs the Unicode data tables, so it is the parameter `nfkd`.
- Text.CleanTextIdempotent: assumes of `nfkd` only that pieces of its outputs are fixed points, which NFKD satisfies. Idempotence is not proved about the real NFKD tables.
- Reading the input with `csv.DictReader` and writing the output with pandas `to_csv`, including `os.makedirs` (main.py:86-92, main.py:119-124). This is file I/O; the rows are given and the records are returned.
- DictReader's `restkey` entry for over-long rows (the key `None` mapped to a list) is not modelled: row keys are strings.
- The `tqdm` progress bar and every `print` diagnostic (main.py:71, main.py:90, main.py:95, main.py:103, main.py:125) are console output.
- Exceptions other than `RequestException` and the `src` `KeyError`, such as a parser failure, are not modelled.
