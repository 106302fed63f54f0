# i-Machine bulk product scraper — a Dafny model of its core

The scraper in `app.py` does three things:

- It reads the catalog's listing page and collects one link per product
  container (`get_product_links`).
- It fetches each product page and builds an insertion-ordered record (`scrape_product_details`).
  The record holds the URL, the model, the price, the labelled and unlabelled
  detail rows, and the optional specification.
- It crawls every link in order (the loop in `main`), shows a progress counter, and
  keeps the records of the pages that could be scraped.

This project models those three parts and proves what they promise:

- Link normalisation keeps the `href` and only ever prepends the site origin.
- Discovery is all or nothing.
- The record always starts with URL, Model and Price.
- Detail rows split at the first colon, with both halves stripped.
- Repeated names are last-write-wins and keep their first position.
- Unlabelled rows go under `Additional Info <len(data)>`.
- Unless a detail row is labelled `Specification`, the specification is
  present exactly when its span was found.
- The dataset is the in-order subsequence of the successfully fetched pages.
- The progress counter runs 1..n.

Parsing HTML is abstracted away. Each page is reduced to what the source's
BeautifulSoup locators found:

- a listing page is its sequence of product containers, each holding the
  `href` of its first anchor, if any;
- a product page is the raw text of its model heading, its price block and its
  specification span, each only if found, plus the raw text of every detail
  row in document order.

A failed HTTP fetch is `None`.

Modules:

- `Wrappers` (`wrappers.dfy`): `Option`.
- `Text` (`text.dfy`): Python's `str.strip()` over the `str.isspace()` character set,
  `startswith`, `split(sep, 1)`, and the decimal rendering of an int in an f-string.
- `OrderedDict` (`ordered_dict.dfy`): a Python `dict` of strings. It is kept as
  the keys in insertion order plus a map. `Items` gives the equivalent view as a
  sequence of (key, value) pairs with distinct keys, and `PutItems` states
  assignment on that view.
- `LinkExtractor` (`link_extractor.dfy`): `get_product_links`.
- `FieldExtractor` (`field_extractor.dfy`): `scrape_product_details`.
- `CrawlLoop` (`crawl_loop.dfy`): the scraping loop of `main`.

Three operations change things step by step and are written as methods with
loops, each proved equal to a specification function:

- `GetProductLinks` is proved equal to `ProductLinks`.
- `ScrapeProductDetails` is proved equal to `ProductRecord`.
- `Crawl` is proved equal to `Dataset`.

The rest is pure and is written as functions and lemmas.

## Model

| member | source | states |
|---|---|---|
| `Text.Strip` | app.py:43 | the result of `strip()` is no longer than its input, and neither its first nor its last character is whitespace |
| `Text.StripFrames` | app.py:43 | the input is the stripped text framed by an all-whitespace prefix and an all-whitespace suffix |
| `Text.StripUnique` | app.py:43 | any framing of a trimmed string by whitespace on both sides is the one `strip()` finds |
| `Text.StripIdempotent` | app.py:43 | a law of `strip()`: stripping a stripped text changes nothing |
| `Text.StripTrimmed` | app.py:43 | a text with no whitespace at either end strips to itself |
| `Text.StripAfterSpace` | app.py:46 | the value half of `name: value` loses exactly its one leading blank |
| `Text.SplitFirst` | app.py:45 | `split(':', 1)` has no second part exactly when there is no colon; otherwise the head holds no colon and head, colon and tail rebuild the text |
| `Text.SplitFirstUnique` | app.py:45 | the split is at the first colon: any decomposition whose head is colon-free is the one returned |
| `Text.Decimal` | app.py:48 | the rendered count is a non-empty string of digits, with a leading zero only for 0 |
| `Text.DecimalRoundTrip` | app.py:48 | reading the rendered digits back gives the count |
| `Text.DecimalInjective` | app.py:48 | different counts render differently |
| `OrderedDict.Singleton` | app.py:30 | `{'URL': url}` is a dict whose only key is that one, and it maps to the given value |
| `OrderedDict.Put` | app.py:46 | assignment keeps the dict valid; a present key keeps its position, a new key is appended |
| `OrderedDict.PutGet` | app.py:46 | after `d[k] = v` the key `k` reads `v` and every other key reads what it did before |
| `OrderedDict.PutKeepsPrefix` | app.py:46 | assignment never disturbs the keys already at the front |
| `OrderedDict.Items` | app.py:30-55 | the i-th pair is the i-th key in insertion order with the value it maps to; no key occurs twice |
| `OrderedDict.PutItems` | app.py:46-48 | on the pair view, assignment replaces a present key's pair in place or appends a new pair, and leaves every other pair as it was |
| `OrderedDict.GetIffKey` | app.py:30-55 | a key can be looked up exactly when it is one of the iterated keys |
| `LinkExtractor.Normalize` | app.py:16-17 | every link starts with "http" |
| `LinkExtractor.NormalizeKeepsHref` | app.py:16-17 | the `href` is the link's suffix; the link equals the `href` exactly when it starts with "http", and otherwise it is the site origin plus the `href` |
| `LinkExtractor.RelativePathExample` | app.py:16-17 | a relative product path resolves under `https://www.i-machine.net` |
| `LinkExtractor.ProductLinks` | app.py:7-23 | a failed fetch, or any container without an `href`, yields no links; otherwise there is one normalised link per container, in container order |
| `LinkExtractor.NeverPartial` | app.py:13-23 | discovery yields either all the containers' links or none |
| `LinkExtractor.GetProductLinks` | app.py:7-23 | the loop that appends one link per container and gives up on a missing `href` returns exactly `ProductLinks` |
| `FieldExtractor.AdditionalInfoKeyInjective` | app.py:48 | unlabelled rows written at different record sizes get different keys |
| `FieldExtractor.Header` | app.py:30-38 | before any detail row the keys are URL, Model, Price in that order; URL is the link; Model and Price are the stripped element text or "N/A" |
| `FieldExtractor.ParseRow` | app.py:43-45 | a row is labelled exactly when its stripped text has a colon; the name is colon-free and both halves are stripped; an unlabelled row keeps its stripped text |
| `FieldExtractor.LabelledRow` | app.py:43-46 | a row whose stripped text is `name:rest`, with `name` colon-free, reads as the stripped `name` and the stripped `rest`, colons in `rest` included |
| `FieldExtractor.ApplyDetailsExtends` | app.py:42-48 | the detail rows keep the record a dict, keep the earlier keys in order at the front, and add at most one key per row |
| `FieldExtractor.UntouchedFrom` | app.py:42-48 | a key that no row in a stretch writes keeps its value across that stretch |
| `FieldExtractor.LastWriteWins` | app.py:44-46 | a key's final value is the one written by the last row that wrote it |
| `FieldExtractor.LabelledRowStored` | app.py:43-46 | a labelled row stores its stripped value under its stripped name; the keys are unchanged if the name was present and the name is appended otherwise |
| `FieldExtractor.UnlabelledRowStored` | app.py:47-48 | a colon-free row stores its stripped text under `Additional Info <len(data)>`, which is appended if new |
| `FieldExtractor.NameValueRow` | app.py:43-46 | a row `name: value` with a trimmed, colon-free name and a trimmed value reads as exactly that name and value |
| `FieldExtractor.PlainRow` | app.py:43-47 | a trimmed row without a colon reads as its own text |
| `FieldExtractor.WeightRowsParse` | app.py:43-45 | the texts "Weight: 12kg" and "Weight: 15kg" read as name Weight with values 12kg and 15kg |
| `FieldExtractor.ShipsWorldwideParses` | app.py:43-44 | the text "Ships worldwide" has no colon and reads as itself |
| `FieldExtractor.LastWriteWinsExample` | app.py:44-46 | two rows already read as Weight = 12kg and Weight = 15kg leave Weight = 15kg, with Weight added once after Price |
| `FieldExtractor.WeightTextsExample` | app.py:42-46 | the raw detail texts "Weight: 12kg" then "Weight: 15kg", read and applied after the header, leave Weight = 15kg as the fourth and last key |
| `FieldExtractor.AdditionalInfoExample` | app.py:47-48 | a row already read as the plain text "Ships worldwide", on a three-key record, is stored as `Additional Info 3` |
| `FieldExtractor.ShipsWorldwideTextExample` | app.py:42-48 | the raw detail text "Ships worldwide", read and applied after the header, is stored as `Additional Info 3` |
| `FieldExtractor.ProductRecord` | app.py:25-55 | the record is a dict starting with URL, Model, Price; when the span is found, Specification holds its stripped text |
| `FieldExtractor.SpecificationStepFrame` | app.py:51-53 | the specification step changes no other key |
| `FieldExtractor.HeaderFieldSurvives` | app.py:30-53 | URL, Model and Price keep their header values unless a detail row writes the same key |
| `FieldExtractor.SpecificationOnlyFromSpan` | app.py:41-53 | unless a detail row writes "Specification", the record has that key exactly when the span was found |
| `FieldExtractor.ScrapeProductDetails` | app.py:25-58 | nothing for a failed fetch; otherwise the dict built step by step is exactly `ProductRecord` |
| `CrawlLoop.TruthyIffFetched` | app.py:78-79 | `if product_data:` holds exactly when the fetch succeeded, since every record has at least three keys |
| `CrawlLoop.Kept` | app.py:75-80 | the dataset never has more records than results seen |
| `CrawlLoop.TruthyPositions` | app.py:79-80 | the kept positions are in range, truthy, strictly increasing and complete |
| `CrawlLoop.KeptIsSubsequence` | app.py:75-80 | the j-th record of the dataset is the result at the j-th truthy position |
| `CrawlLoop.DatasetIsFetchedPages` | app.py:75-80 | the dataset holds exactly the records of the successfully fetched pages, each built from its own link, in link order |
| `CrawlLoop.Crawl` | app.py:75-82 | the loop's dataset is `Dataset`, and the progress counter shown for the link at position `index` is `index + 1` |
| `CrawlLoop.SecondPageFailsExample` | app.py:76-80 | with three links whose second fetch fails, the dataset is the first and the third record, in that order |

Definitions. These functions state no property of their own; the lemmas named
with each carry what the source promises about them.

- `OrderedDict.Size` (app.py:48): `len(data)`, the number of keys; see `UnlabelledRowStored`, `AdditionalInfoExample` and `TruthyIffFetched`.
- `OrderedDict.Get`: the lookup the contracts are stated with (`d.get(k)`); the source itself never looks a key up.
- `Text.IsSpace` (app.py:43): the characters of Python's `str.isspace()`; used by `Strip`.
- `Text.StartsWith` (app.py:16): `str.startswith`; see `Normalize` and `NormalizeKeepsHref`.
- `LinkExtractor.HrefOf` (app.py:15): `product.find('a')['href']`, `None` where it raises; see `ProductLinks` and `GetProductLinks`.
- `FieldExtractor.TextOrDefault` (app.py:34, app.py:38): the stripped text or "N/A"; see `Header`.
- `FieldExtractor.AdditionalInfoKey` (app.py:48): `f'Additional Info {len(data)}'`; see `AdditionalInfoKeyInjective`, `UnlabelledRowStored` and `AdditionalInfoExample`.
- `FieldExtractor.ParseRows` (app.py:41-43): every detail row read by `ParseRow`, in document order; see `ParseRow`, `LabelledRow` and `NameValueRow`.
- `FieldExtractor.RowField` (app.py:44-48): the key and value one read row writes; see `LabelledRowStored`, `UnlabelledRowStored` and `LastWriteWins`.
- `FieldExtractor.ApplyDetail` (app.py:44-48): `data[key] = value` for one read row; see `LabelledRowStored` and `UnlabelledRowStored`.
- `FieldExtractor.ApplyDetails` (app.py:42-48): the detail loop, row by row in document order; see `ApplyDetailsExtends`, `UntouchedFrom`, `LastWriteWins` and the loop invariant of `ScrapeProductDetails`. `FieldExtractor.ApplyNextDetail` is the one-step unfolding that invariant uses.
- `FieldExtractor.WithDetails` (app.py:30-48): the record before the specification step; see `SpecificationStepFrame`.
- `FieldExtractor.ReadAs`: texts read one for one as given rows; used by the text-level examples.
- `CrawlLoop.Truthy` (app.py:79): `if product_data:`; see `TruthyIffFetched`.
- `CrawlLoop.Results` (app.py:76-78): one `scrape_product_details` result per link, in link order; see `TruthyIffFetched` and `DatasetIsFetchedPages`.
- `CrawlLoop.Dataset` (app.py:75-80): `scraped_data` after the loop; see `DatasetIsFetchedPages`, `SecondPageFailsExample` and `Crawl`.

## Left out

- The Streamlit interface is not modelled (app.py:61-74 and 83-104). That covers the title, the button, the spinner, the `st.error` and `st.success` messages, the table display, the CSV download and the display of the script's own source. The gates `if product_links:` and `if scraped_data:` only decide what is shown.
- The HTTP requests are parameters: each fetch is given as its outcome, `None` for failure.
- `time.sleep(1)` between pages is not modelled; it has no effect on the data.
- HTML parsing is not modelled. The CSS-class and style locators and `.text` extraction are taken as given: the model's inputs are the texts the locators found.
- Exceptions are modelled only where the core relies on them:
  - a failed fetch, for both functions;
  - a container with no anchor or no `href`, for `get_product_links`.
  Failures inside the HTML parser are not modelled.
- `CrawlLoop.Crawl`: the progress bar's fraction `(index+1)/len(product_links)` is a float and is not modelled. The model keeps the integer counter `index + 1` that the status text shows.
- `OrderedDict.Dict` stores the keys in insertion order plus a map, rather than a list of pairs. `OrderedDict.Items` is the pair view, and `OrderedDict.PutItems` states assignment on it.
- `FieldExtractor.HeaderFieldSurvives`: this is conditional. A detail row labelled `URL`, `Model` or `Price` overwrites that header value in place, because the code assigns into the same dict.
- `FieldExtractor.SpecificationOnlyFromSpan`: this is conditional for the same reason. A detail row labelled `Specification` creates that key between the details even when no span is found. When a span is also found, the key keeps its earlier position rather than coming last.
- A synthesized `Additional Info <N>` key can equal a key already in the record, such as one written by an earlier labelled row. The code then overwrites that value. The model follows the code.
- An empty listing page (no product containers) yields no links, just as a failure does; the model follows the code.
