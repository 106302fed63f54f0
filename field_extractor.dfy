/**
 * Field extraction from one product page (`scrape_product_details`). The
 * parsed page is reduced to what the locators found: the raw text of the model
 * heading, of the price block and of the specification span, each only if
 * found, and the raw text of every detail row in document order. A failed
 * fetch of the page is `None`.
 */
module FieldExtractor {
  import opened Wrappers
  import opened Text
  import opened OrderedDict

  datatype ProductPage = ProductPage(
    model: Option<string>,
    price: Option<string>,
    details: seq<string>,
    specification: Option<string>)

  /** The value recorded for a model or price element that was not found. */
  const NotAvailable := "N/A"

  /** The stripped text of a found element, or "N/A". */
  function TextOrDefault(found: Option<string>): string {
    match found
    case Some(text) => Strip(text)
    case None => NotAvailable
  }

  /** The key an unlabelled detail row is stored under when the record already
      has `size` keys. */
  function AdditionalInfoKey(size: nat): string {
    "Additional Info " + Decimal(size)
  }

  /** Different record sizes give different synthesized keys. */
  lemma {:induction false} AdditionalInfoKeyInjective(m: nat, n: nat)
    requires m != n
    ensures AdditionalInfoKey(m) != AdditionalInfoKey(n)
  {
    DecimalInjective(m, n);
    var prefix := "Additional Info ";
    assert AdditionalInfoKey(m)[|prefix|..] == Decimal(m);
    assert AdditionalInfoKey(n)[|prefix|..] == Decimal(n);
  }

  /** The record before any detail row: URL, then Model and Price, each the
      stripped text of its element or "N/A". */
  function Header(url: string, page: ProductPage): (d: Dict)
    ensures Valid(d) && d.keys == ["URL", "Model", "Price"]
    ensures Get(d, "URL") == Some(url)
    ensures Get(d, "Model") == Some(if page.model.Some? then Strip(page.model.value) else "N/A")
    ensures Get(d, "Price") == Some(if page.price.Some? then Strip(page.price.value) else "N/A")
  {
    Put(Put(Singleton("URL", url), "Model", TextOrDefault(page.model)), "Price", TextOrDefault(page.price))
  }

  /** A detail row after `strip()` and `split(':', 1)`: a row containing a
      colon is a name and a value, any other row is only its text. */
  datatype DetailRow = Labelled(name: string, value: string) | Unlabelled(text: string)

  /** How one detail row is read: a row whose stripped text contains a colon
      gives a colon-free, stripped name and a stripped value; any other row
      gives its stripped text. */
  function ParseRow(row: string): (r: DetailRow)
    ensures r.Labelled? <==> ':' in Strip(row)
    ensures r.Labelled? ==> ':' !in r.name && Trimmed(r.name) && Trimmed(r.value)
    ensures r.Unlabelled? ==> r.text == Strip(row)
  {
    var text := Strip(row);
    match SplitFirst(text, ':')
    case Some(parts) =>
      assert ':' !in Strip(parts.0) by {
        var pre, post := StripFrames(parts.0);
      }
      Labelled(Strip(parts.0), Strip(parts.1))
    case None => Unlabelled(text)
  }

  /** A row whose stripped text is `name + ":" + rest`, with no colon in
      `name`, stores `rest` (stripped, colons and all) under `name`
      (stripped): the split is at the first colon. */
  lemma {:induction false} LabelledRow(row: string, name: string, rest: string)
    requires Strip(row) == name + ":" + rest && ':' !in name
    ensures ParseRow(row) == Labelled(Strip(name), Strip(rest))
  {
    SplitFirstUnique(Strip(row), ':', name, rest);
  }

  /** A row written `name: value`, with a trimmed, colon-free name and a
      trimmed value, reads as exactly that name and value. */
  lemma {:induction false} NameValueRow(name: string, value: string)
    requires name != [] && Trimmed(name) && ':' !in name
    requires value != [] && Trimmed(value)
    ensures ParseRow(name + ": " + value) == Labelled(name, value)
  {
    var row := name + ": " + value;
    assert row == name + ":" + (" " + value);
    assert Trimmed(row) by {
      assert row[0] == name[0] && row[|row| - 1] == value[|value| - 1];
    }
    StripTrimmed(row);
    LabelledRow(row, name, " " + value);
    StripTrimmed(name);
    StripAfterSpace(value);
  }

  /** A trimmed row without a colon reads as its own text. */
  lemma {:induction false} PlainRow(text: string)
    requires Trimmed(text) && ':' !in text
    ensures ParseRow(text) == Unlabelled(text)
  {
    StripTrimmed(text);
  }

  /** "Weight: 12kg" and "Weight: 15kg" read as the name Weight with the
      values 12kg and 15kg. */
  lemma {:induction false} WeightRowsParse(first: string, second: string)
    requires first == "Weight: 12kg" && second == "Weight: 15kg"
    ensures ParseRow(first) == Labelled("Weight", "12kg")
    ensures ParseRow(second) == Labelled("Weight", "15kg")
  {
    var name, v1, v2 := "Weight", "12kg", "15kg";
    assert ':' !in name by {
      forall i | 0 <= i < |name| ensures name[i] != ':' { }
    }
    assert first == name + ": " + v1 && second == name + ": " + v2;
    NameValueRow(name, v1);
    NameValueRow(name, v2);
  }

  /** "Ships worldwide" has no colon and reads as itself. */
  lemma {:induction false} ShipsWorldwideParses(row: string)
    requires row == "Ships worldwide"
    ensures ParseRow(row) == Unlabelled("Ships worldwide")
  {
    assert ':' !in row by {
      forall i | 0 <= i < |row| ensures row[i] != ':' { }
    }
    PlainRow(row);
  }

  /** Every row of the page, read in document order. The `ensures` only
      unfold this definition for the verifier; the promises are in
      `ParseRow`, `LabelledRow` and `NameValueRow`. */
  function ParseRows(rows: seq<string>): (parsed: seq<DetailRow>)
    ensures |parsed| == |rows|
    ensures forall i :: 0 <= i < |rows| ==> parsed[i] == ParseRow(rows[i])
  {
    seq(|rows|, i requires 0 <= i < |rows| => ParseRow(rows[i]))
  }

  /** A key and the value written under it. */
  datatype Field = Field(key: string, value: string)

  /** The field a read row writes into a record that has `size` keys: its
      name and value, or its text under a synthesized key. The `ensures`
      only unfold this definition for the verifier; the promises are in
      `LabelledRowStored`, `UnlabelledRowStored` and `LastWriteWins`. */
  function RowField(size: nat, row: DetailRow): (f: Field)
    ensures row.Labelled? ==> f == Field(row.name, row.value)
    ensures row.Unlabelled? ==> f == Field(AdditionalInfoKey(size), row.text)
  {
    match row
    case Labelled(name, value) => Field(name, value)
    case Unlabelled(text) => Field(AdditionalInfoKey(size), text)
  }

  /** `data[key] = value` for one detail row. */
  function ApplyDetail(d: Dict, row: DetailRow): Dict {
    var f := RowField(Size(d), row);
    Put(d, f.key, f.value)
  }

  /** The record after the first `n` detail rows, applied one after the other
      in document order. */
  function ApplyDetails(d: Dict, rows: seq<DetailRow>, n: nat): Dict
    requires n <= |rows|
  {
    if n == 0 then d else ApplyDetail(ApplyDetails(d, rows, n - 1), rows[n - 1])
  }

  /** Detail rows keep the record a dict, keep the keys already present in
      order at the front, and add at most one key each. */
  lemma {:induction false} ApplyDetailsExtends(d: Dict, rows: seq<DetailRow>, n: nat)
    requires Valid(d) && n <= |rows|
    ensures Valid(ApplyDetails(d, rows, n))
    ensures d.keys <= ApplyDetails(d, rows, n).keys
    ensures |ApplyDetails(d, rows, n).keys| <= |d.keys| + n
  {
    if n > 0 {
      ApplyDetailsExtends(d, rows, n - 1);
    }
  }

  /** Applying the first `i + 1` rows is applying row `i`, read, to the record
      after the first `i`. */
  lemma {:induction false} ApplyNextDetail(d: Dict, rows: seq<string>, i: nat)
    requires i < |rows|
    ensures ApplyDetails(d, ParseRows(rows), i + 1)
            == ApplyDetail(ApplyDetails(d, ParseRows(rows), i), ParseRow(rows[i]))
  {
  }

  /** The field written by the detail row at position `m`. */
  function FieldWrittenAt(d: Dict, rows: seq<DetailRow>, m: nat): Field
    requires m < |rows|
  {
    RowField(Size(ApplyDetails(d, rows, m)), rows[m])
  }

  /** A key that no detail row from position `i` up to `n` writes keeps the
      value it had before row `i`. */
  lemma {:induction false} UntouchedFrom(d: Dict, rows: seq<DetailRow>, i: nat, n: nat, k: string)
    requires i <= n <= |rows|
    requires forall m {:trigger FieldWrittenAt(d, rows, m)} :: i <= m < n ==> FieldWrittenAt(d, rows, m).key != k
    ensures Get(ApplyDetails(d, rows, n), k) == Get(ApplyDetails(d, rows, i), k)
  {
    if i < n {
      UntouchedFrom(d, rows, i, n - 1, k);
      var f := FieldWrittenAt(d, rows, n - 1);
      PutGet(ApplyDetails(d, rows, n - 1), f.key, f.value, k);
    }
  }

  /** Last write wins: the value of a key is the one written by the last
      detail row that wrote it. */
  lemma {:induction false} LastWriteWins(d: Dict, rows: seq<DetailRow>, j: nat, k: string)
    requires j < |rows| && FieldWrittenAt(d, rows, j).key == k
    requires forall m {:trigger FieldWrittenAt(d, rows, m)} :: j < m < |rows| ==> FieldWrittenAt(d, rows, m).key != k
    ensures Get(ApplyDetails(d, rows, |rows|), k) == Some(FieldWrittenAt(d, rows, j).value)
  {
    UntouchedFrom(d, rows, j + 1, |rows|, k);
    var f := FieldWrittenAt(d, rows, j);
    PutGet(ApplyDetails(d, rows, j), f.key, f.value, k);
  }

  /** The record once every detail row of the page has been applied. */
  function WithDetails(url: string, page: ProductPage): Dict {
    ApplyDetails(Header(url, page), ParseRows(page.details), |page.details|)
  }

  /** The record of one fetched product page: a dict with URL, Model and Price
      at the front in that order, and the stripped specification text whenever
      the span was found. */
  function ProductRecord(url: string, page: ProductPage): (r: Dict)
    ensures Valid(r)
    ensures ["URL", "Model", "Price"] <= r.keys
    ensures page.specification.Some? ==>
              Get(r, "Specification") == Some(Strip(page.specification.value))
  {
    var d := WithDetails(url, page);
    ApplyDetailsExtends(Header(url, page), ParseRows(page.details), |page.details|);
    if page.specification.Some? then
      var text := Strip(page.specification.value);
      PutKeepsPrefix(d, ["URL", "Model", "Price"], "Specification", text);
      Put(d, "Specification", text)
    else d
  }

  /** The specification step changes no key other than "Specification". */
  lemma {:induction false} SpecificationStepFrame(url: string, page: ProductPage, k: string)
    requires k != "Specification"
    ensures Get(ProductRecord(url, page), k) == Get(WithDetails(url, page), k)
  {
    if page.specification.Some? {
      PutGet(WithDetails(url, page), "Specification", Strip(page.specification.value), k);
    }
  }

  /** No detail row of the page writes key `k`. */
  predicate NoDetailWrites(url: string, page: ProductPage, k: string) {
    forall m {:trigger FieldWrittenAt(Header(url, page), ParseRows(page.details), m)}
      :: 0 <= m < |page.details| ==> FieldWrittenAt(Header(url, page), ParseRows(page.details), m).key != k
  }

  /** A header field that no detail row overwrites keeps its header value:
      the URL is the page's own link, Model and Price are the found text or
      "N/A". */
  lemma {:induction false} HeaderFieldSurvives(url: string, page: ProductPage, k: string)
    requires k in ["URL", "Model", "Price"]
    requires NoDetailWrites(url, page, k)
    ensures Get(ProductRecord(url, page), k) == Get(Header(url, page), k)
  {
    UntouchedFrom(Header(url, page), ParseRows(page.details), 0, |page.details|, k);
    SpecificationStepFrame(url, page, k);
  }

  /** Unless a detail row is labelled "Specification", the record has that key
      exactly when the specification span was found. */
  lemma {:induction false} SpecificationOnlyFromSpan(url: string, page: ProductPage)
    requires NoDetailWrites(url, page, "Specification")
    ensures Get(ProductRecord(url, page), "Specification").Some? <==> page.specification.Some?
  {
    var h := Header(url, page);
    GetIffKey(h, "Specification");
    UntouchedFrom(h, ParseRows(page.details), 0, |page.details|, "Specification");
    assert Get(WithDetails(url, page), "Specification") == None;
  }

  /** `scrape_product_details`: nothing when the fetch fails; otherwise the
      record built step by step into one dict. */
  method ScrapeProductDetails(url: string, response: Option<ProductPage>) returns (record: Option<Dict>)
    ensures response.None? ==> record == None
    ensures response.Some? ==> record == Some(ProductRecord(url, response.value))
  {
    if response.None? {
      return None;
    }
    var page := response.value;
    var data := Singleton("URL", url);
    data := Put(data, "Model", TextOrDefault(page.model));
    data := Put(data, "Price", TextOrDefault(page.price));
    var details := page.details;
    for i := 0 to |details|
      invariant data == ApplyDetails(Header(url, page), ParseRows(details), i)
    {
      ApplyNextDetail(Header(url, page), details, i);
      var row := ParseRow(details[i]);
      var field := RowField(Size(data), row);
      data := Put(data, field.key, field.value);
    }
    assert data == WithDetails(url, page);
    if page.specification.Some? {
      data := Put(data, "Specification", Strip(page.specification.value));
    }
    record := Some(data);
  }

  /** A row with a colon, `name + ":" + rest` once stripped and with no
      colon in `name`, leaves `rest` stripped (any further colons included)
      under `name` stripped; a key already present keeps its position and the
      record does not grow, a new key goes to the end. */
  lemma {:induction false} LabelledRowStored(d: Dict, row: string, name: string, rest: string)
    requires Valid(d)
    requires Strip(row) == name + ":" + rest && ':' !in name
    ensures Get(ApplyDetail(d, ParseRow(row)), Strip(name)) == Some(Strip(rest))
    ensures ApplyDetail(d, ParseRow(row)).keys
            == if Strip(name) in d.keys then d.keys else d.keys + [Strip(name)]
  {
    LabelledRow(row, name, rest);
  }

  /** A row without a colon leaves its stripped text under "Additional Info N",
      N being the number of keys just before; when no such key exists yet it
      goes to the end. */
  lemma {:induction false} UnlabelledRowStored(d: Dict, row: string)
    requires Valid(d)
    requires ':' !in Strip(row)
    ensures Get(ApplyDetail(d, ParseRow(row)), AdditionalInfoKey(|d.keys|)) == Some(Strip(row))
    ensures ApplyDetail(d, ParseRow(row)).keys == if AdditionalInfoKey(|d.keys|) in d.keys then d.keys
                                                   else d.keys + [AdditionalInfoKey(|d.keys|)]
  {
  }

  /** Two "Weight" rows after the header: the second value wins, the key
      stays fourth, and the record does not grow. */
  lemma {:induction false} LastWriteWinsExample(h: Dict, rows: seq<DetailRow>)
    requires Valid(h) && h.keys == ["URL", "Model", "Price"]
    requires rows == [Labelled("Weight", "12kg"), Labelled("Weight", "15kg")]
    ensures Get(ApplyDetails(h, rows, 2), "Weight") == Some("15kg")
    ensures ApplyDetails(h, rows, 2).keys == ["URL", "Model", "Price", "Weight"]
  {
    assert "Weight" !in h.keys;
    assert ApplyDetails(h, rows, 0) == h;
    var first := ApplyDetails(h, rows, 1);
    assert first.keys == ["URL", "Model", "Price", "Weight"];
    assert first.keys[3] == "Weight";
  }

  /** A row without a colon right after the header is stored as
      "Additional Info 3": the header already holds three keys. */
  lemma {:induction false} AdditionalInfoExample(h: Dict, rows: seq<DetailRow>)
    requires Valid(h) && h.keys == ["URL", "Model", "Price"]
    requires rows == [Unlabelled("Ships worldwide")]
    ensures ApplyDetails(h, rows, 1).keys == ["URL", "Model", "Price", "Additional Info 3"]
    ensures Get(ApplyDetails(h, rows, 1), "Additional Info 3") == Some("Ships worldwide")
  {
    assert AdditionalInfoKey(3) == "Additional Info 3";
    assert "Additional Info 3" !in h.keys;
  }

  /** Texts read one for one as given rows. */
  lemma {:induction false} ReadAs(texts: seq<string>, rows: seq<DetailRow>)
    requires |texts| == |rows|
    requires forall i :: 0 <= i < |texts| ==> ParseRow(texts[i]) == rows[i]
    ensures ParseRows(texts) == rows
  {
  }

  /** The detail rows "Weight: 12kg" then "Weight: 15kg", read and applied
      after the header, leave Weight holding 15kg as the fourth key. */
  lemma {:induction false} WeightTextsExample(h: Dict, texts: seq<string>)
    requires Valid(h) && h.keys == ["URL", "Model", "Price"]
    requires texts == ["Weight: 12kg", "Weight: 15kg"]
    ensures Get(ApplyDetails(h, ParseRows(texts), 2), "Weight") == Some("15kg")
    ensures ApplyDetails(h, ParseRows(texts), 2).keys == ["URL", "Model", "Price", "Weight"]
  {
    WeightRowsParse(texts[0], texts[1]);
    ReadAs(texts, [Labelled("Weight", "12kg"), Labelled("Weight", "15kg")]);
    LastWriteWinsExample(h, ParseRows(texts));
  }

  /** The detail row "Ships worldwide", read and applied after the header, is
      stored as "Additional Info 3". */
  lemma {:induction false} ShipsWorldwideTextExample(h: Dict, texts: seq<string>)
    requires Valid(h) && h.keys == ["URL", "Model", "Price"]
    requires texts == ["Ships worldwide"]
    ensures Get(ApplyDetails(h, ParseRows(texts), 1), "Additional Info 3") == Some("Ships worldwide")
  {
    ShipsWorldwideParses(texts[0]);
    ReadAs(texts, [Unlabelled("Ships worldwide")]);
    AdditionalInfoExample(h, ParseRows(texts));
  }
}
