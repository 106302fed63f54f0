/**
 * Link discovery on the catalog's listing page (`get_product_links`). The
 * parsed page is reduced to what the locators found: the `div.product`
 * containers in document order, each with its first anchor, if any, and that
 * anchor's `href`, if any. A failed fetch of the listing page is `None`.
 */
module LinkExtractor {
  import opened Wrappers
  import opened Text

  /** The origin prepended to an `href` that is not already absolute. */
  const SiteOrigin := "https://www.i-machine.net"

  datatype Anchor = Anchor(href: Option<string>)

  /** A product container and the first anchor found inside it. */
  datatype Container = Container(firstAnchor: Option<Anchor>)

  /** The `href` of a container's first anchor; `None` where the source's
      `product.find('a')['href']` raises (no anchor, or no `href`). */
  function HrefOf(c: Container): Option<string> {
    match c.firstAnchor
    case None => None
    case Some(a) => a.href
  }

  /** An `href` that does not start with "http" gets the site origin in
      front; every link starts with "http". */
  function Normalize(href: string): (link: string)
    ensures StartsWith(link, "http")
  {
    if StartsWith(href, "http") then href
    else
      assert (SiteOrigin + href)[..4] == "http";
      SiteOrigin + href
  }

  /** Normalising keeps the `href` unchanged at the end of the link, and
      changes it exactly when it does not start with "http", by putting the
      site origin in front. */
  lemma {:induction false} NormalizeKeepsHref(href: string)
    ensures |href| <= |Normalize(href)| && Normalize(href)[|Normalize(href)| - |href|..] == href
    ensures StartsWith(href, "http") <==> Normalize(href) == href
    ensures !StartsWith(href, "http") <==> Normalize(href) == SiteOrigin + href
  {
    var link := Normalize(href);
    if !StartsWith(href, "http") {
      assert link[|link| - |href|..] == href;
      assert link != href by { assert |link| == |SiteOrigin| + |href|; }
    }
  }

  /** Every container has an anchor with an `href`. */
  predicate AllHaveHref(cs: seq<Container>) {
    forall i :: 0 <= i < |cs| ==> HrefOf(cs[i]).Some?
  }

  /** What discovery returns: the normalised `href` of every container, in
      container order and with repeats kept, or nothing at all when the fetch
      failed or any container lacks its `href`. */
  function ProductLinks(listing: Option<seq<Container>>): (links: seq<string>)
    ensures forall i :: 0 <= i < |links| ==> StartsWith(links[i], "http")
    ensures listing.None? ==> links == []
    ensures listing.Some? && !AllHaveHref(listing.value) ==> links == []
    ensures listing.Some? && AllHaveHref(listing.value) ==>
              |links| == |listing.value| &&
              forall i :: 0 <= i < |links| ==> links[i] == Normalize(HrefOf(listing.value[i]).value)
  {
    match listing
    case None => []
    case Some(cs) =>
      if AllHaveHref(cs) then seq(|cs|, i requires 0 <= i < |cs| => Normalize(HrefOf(cs[i]).value))
      else []
  }

  /** Discovery never hands back part of the listing: either every container
      yields exactly one link or there are no links. */
  lemma {:induction false} NeverPartial(listing: Option<seq<Container>>)
    requires listing.Some?
    ensures ProductLinks(listing) == [] || |ProductLinks(listing)| == |listing.value|
  {
  }

  /** `get_product_links`: walks the containers in order, appending one link
      each, and gives up with the empty list at the first container without an
      `href` (the source's exception handler). */
  method GetProductLinks(listing: Option<seq<Container>>) returns (links: seq<string>)
    ensures links == ProductLinks(listing)
  {
    if listing.None? {
      return [];
    }
    var products := listing.value;
    links := [];
    for i := 0 to |products|
      invariant |links| == i
      invariant forall j :: 0 <= j < i ==> HrefOf(products[j]).Some?
      invariant forall j :: 0 <= j < i ==> links[j] == Normalize(HrefOf(products[j]).value)
    {
      var href := HrefOf(products[i]);
      if href.None? {
        assert !AllHaveHref(products) by { assert HrefOf(products[i]).None?; }
        return [];
      }
      var link := href.value;
      if !StartsWith(link, "http") {
        link := SiteOrigin + link;
      }
      assert link == Normalize(href.value);
      links := links + [link];
    }
    assert AllHaveHref(products);
  }

  /** A relative product path is resolved against the site origin. */
  lemma {:induction false} RelativePathExample()
    ensures Normalize("/products/x") == "https://www.i-machine.net/products/x"
  {
    assert !StartsWith("/products/x", "http") by { assert "/products/x"[0] != "http"[0]; }
  }
}
