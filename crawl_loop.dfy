/**
 * The crawl in `main`: every discovered link is scraped in order, the
 * progress text counts the links from 1, and every page that gave a
 * non-empty record joins the dataset. What each fetch returned is given, link
 * by link, as `responses` (`None` for a failed fetch).
 */
module CrawlLoop {
  import opened Wrappers
  import opened OrderedDict
  import opened FieldExtractor

  /** `if product_data:` — a record that is present and not empty. */
  predicate Truthy(record: Option<Dict>) {
    record.Some? && Size(record.value) > 0
  }

  /** What `scrape_product_details` returns for each link, in link order.
      The `ensures` only unfold this definition for the verifier; the
      promises are in `TruthyIffFetched` and `DatasetIsFetchedPages`. */
  function Results(links: seq<string>, responses: seq<Option<ProductPage>>): (results: seq<Option<Dict>>)
    requires |links| == |responses|
    ensures |results| == |links|
    ensures forall i :: 0 <= i < |links| && responses[i].None? ==> results[i] == None
    ensures forall i :: 0 <= i < |links| && responses[i].Some? ==>
              results[i] == Some(ProductRecord(links[i], responses[i].value))
  {
    seq(|links|, i requires 0 <= i < |links| =>
      if responses[i].Some? then Some(ProductRecord(links[i], responses[i].value)) else None)
  }

  /** A page yields a truthy result exactly when its fetch succeeded: every
      record holds at least URL, Model and Price. */
  lemma {:induction false} TruthyIffFetched(links: seq<string>, responses: seq<Option<ProductPage>>, i: nat)
    requires |links| == |responses| && i < |links|
    ensures Truthy(Results(links, responses)[i]) <==> responses[i].Some?
  {
    if responses[i].Some? {
      var r := ProductRecord(links[i], responses[i].value);
      assert |["URL", "Model", "Price"]| <= |r.keys|;
    }
  }

  /** The dataset after the first `n` results: the truthy ones, in order. */
  function Kept(results: seq<Option<Dict>>, n: nat): (dataset: seq<Dict>)
    requires n <= |results|
    ensures |dataset| <= n
  {
    if n == 0 then []
    else if Truthy(results[n - 1]) then Kept(results, n - 1) + [results[n - 1].value]
    else Kept(results, n - 1)
  }

  /** The positions among the first `n` results that are truthy, increasing. */
  function TruthyPositions(results: seq<Option<Dict>>, n: nat): (positions: seq<nat>)
    requires n <= |results|
    ensures forall j :: 0 <= j < |positions| ==> positions[j] < n && Truthy(results[positions[j]])
    ensures forall j, l :: 0 <= j < l < |positions| ==> positions[j] < positions[l]
    ensures forall i :: 0 <= i < n && Truthy(results[i]) ==> i in positions
  {
    if n == 0 then []
    else if Truthy(results[n - 1]) then TruthyPositions(results, n - 1) + [n - 1]
    else TruthyPositions(results, n - 1)
  }

  /** The dataset is the subsequence of truthy results: its `j`-th record is
      the result at the `j`-th truthy position, so records keep the relative
      order of their links and none is dropped or repeated. */
  lemma {:induction false} KeptIsSubsequence(results: seq<Option<Dict>>, n: nat)
    requires n <= |results|
    ensures |Kept(results, n)| == |TruthyPositions(results, n)|
    ensures forall j :: 0 <= j < |Kept(results, n)| ==>
              Kept(results, n)[j] == results[TruthyPositions(results, n)[j]].value
  {
    if n > 0 {
      KeptIsSubsequence(results, n - 1);
    }
  }

  /** The crawl's dataset: the records of the pages whose fetch succeeded, in
      link order. */
  function Dataset(links: seq<string>, responses: seq<Option<ProductPage>>): seq<Dict>
    requires |links| == |responses|
  {
    Kept(Results(links, responses), |links|)
  }

  /** The dataset holds exactly the records of the pages whose fetch
      succeeded, each scraped from its own link, in link order. */
  lemma {:induction false} DatasetIsFetchedPages(links: seq<string>, responses: seq<Option<ProductPage>>)
    requires |links| == |responses|
    ensures var positions := TruthyPositions(Results(links, responses), |links|);
            && |Dataset(links, responses)| == |positions|
            && (forall i :: 0 <= i < |links| ==> (i in positions <==> responses[i].Some?))
            && (forall j :: 0 <= j < |positions| ==>
                  Dataset(links, responses)[j] == ProductRecord(links[positions[j]], responses[positions[j]].value))
  {
    var results := Results(links, responses);
    KeptIsSubsequence(results, |links|);
    forall i | 0 <= i < |links| ensures Truthy(results[i]) <==> responses[i].Some? {
      TruthyIffFetched(links, responses, i);
    }
  }

  /** `main`'s loop over the discovered links: the progress counter shown for
      the link at position `index` is `index + 1`, and the dataset collects the
      truthy results of `scrape_product_details` in link order. */
  method Crawl(links: seq<string>, responses: seq<Option<ProductPage>>)
    returns (dataset: seq<Dict>, progress: seq<nat>)
    requires |responses| == |links|
    ensures dataset == Dataset(links, responses)
    ensures |progress| == |links|
    ensures forall k :: 0 <= k < |progress| ==> progress[k] == k + 1
  {
    ghost var results := Results(links, responses);
    dataset := [];
    progress := [];
    for index := 0 to |links|
      invariant dataset == Kept(results, index)
      invariant |progress| == index
      invariant forall k :: 0 <= k < index ==> progress[k] == k + 1
    {
      progress := progress + [index + 1];
      var productData := ScrapeProductDetails(links[index], responses[index]);
      assert productData == results[index];
      if productData.Some? && Size(productData.value) > 0 {
        dataset := dataset + [productData.value];
      }
    }
  }

  /** Three links whose second fetch fails give the records of the first and
      the third page, in that order. */
  lemma {:induction false} SecondPageFailsExample(links: seq<string>, responses: seq<Option<ProductPage>>, first: ProductPage, third: ProductPage)
    requires |links| == 3 && responses == [Some(first), None, Some(third)]
    ensures Dataset(links, responses) == [ProductRecord(links[0], first), ProductRecord(links[2], third)]
  {
    var results := Results(links, responses);
    TruthyIffFetched(links, responses, 0);
    TruthyIffFetched(links, responses, 2);
    assert Kept(results, 1) == [results[0].value] by {
      assert Kept(results, 0) == [];
    }
    assert Kept(results, 2) == Kept(results, 1);
  }
}
