/**
 * The catalogue's search responses (an OpenSearch-style JSON document from the
 * Copernicus Data Space resto API) as data, and the chain of pages that
 * following `rel == "next"` links visits.
 */
module Catalog {
  import opened Wrappers

  /** A footprint geometry, kept as the GeoJSON object's text. */
  type Geometry = string

  /** One element of `features`: its `geometry`, `properties.title` and `properties.productIdentifier`. */
  datatype Feature = Feature(geometry: Geometry, title: string, productIdentifier: string)

  /** One element of `properties.links`. */
  datatype Link = Link(rel: string, href: string)

  /** An HTTP response: its status code and, parsed from its JSON body, the features and links. */
  datatype Response = Response(status: int, features: seq<Feature>, links: seq<Link>)

  const Next: string := "next"

  /** `[l['rel'] for l in links].index('next')`, or `None` where `'next' not in tags`. */
  function NextIndex(links: seq<Link>): (r: Option<nat>)
    ensures r.None? <==> forall i :: 0 <= i < |links| ==> links[i].rel != Next
    ensures r.Some? ==> r.value < |links| && links[r.value].rel == Next
    ensures r.Some? ==> forall j :: 0 <= j < r.value ==> links[j].rel != Next
  {
    if links == [] then None
    else if links[0].rel == Next then Some(0)
    else match NextIndex(links[1..])
      case None => None
      case Some(k) => Some(k + 1)
  }

  /** `q` is what GET on the `href` of `p`'s first "next" link returns. */
  predicate Follows(fetch: string -> Response, p: Response, q: Response)
  {
    match NextIndex(p.links)
    case None => false
    case Some(k) => q == fetch(p.links[k].href)
  }

  /**
   * Starting at page `r`, following the first "next" link of each page
   * reaches a page without one after exactly `hops` links.
   */
  predicate EndsAfter(fetch: string -> Response, r: Response, hops: nat)
    decreases hops
  {
    match NextIndex(r.links)
    case None => hops == 0
    case Some(k) => hops > 0 && EndsAfter(fetch, fetch(r.links[k].href), hops - 1)
  }

  /** The number of links followed from a page is determined by the page and the server. */
  lemma {:induction false} EndsAfterUnique(fetch: string -> Response, r: Response, m: nat, n: nat)
    requires EndsAfter(fetch, r, m) && EndsAfter(fetch, r, n)
    ensures m == n
    decreases m
  {
    match NextIndex(r.links)
    case None =>
    case Some(k) => EndsAfterUnique(fetch, fetch(r.links[k].href), m - 1, n - 1);
  }

  /**
   * A page whose "next" link leads back to itself is never left: the loop in
   * the Python code does not terminate on such a server.
   */
  lemma {:induction false} SelfLinkNeverEnds(fetch: string -> Response, r: Response, hops: nat)
    requires NextIndex(r.links).Some? && fetch(r.links[NextIndex(r.links).value].href) == r
    ensures !EndsAfter(fetch, r, hops)
    decreases hops
  {
    if hops > 0 {
      SelfLinkNeverEnds(fetch, r, hops - 1);
    }
  }

  /**
   * The page reached from `r` by following `n` first "next" links, or `None`
   * when a page without one comes first.
   */
  function Walk(fetch: string -> Response, r: Response, n: nat): Option<Response>
    decreases n
  {
    if n == 0 then Some(r)
    else match NextIndex(r.links)
      case None => None
      case Some(k) => Walk(fetch, fetch(r.links[k].href), n - 1)
  }

  /**
   * A walk that ends after `hops` links and reaches `q` after `n` of them has
   * `n <= hops`, and from `q` it ends after the remaining `hops - n`.
   */
  lemma {:induction false} EndsAfterWalk(fetch: string -> Response, r: Response, hops: nat, n: nat, q: Response)
    requires Walk(fetch, r, n) == Some(q)
    ensures EndsAfter(fetch, r, hops) ==> n <= hops && EndsAfter(fetch, q, hops - n)
    decreases n
  {
    if n > 0 {
      var k := NextIndex(r.links).value;
      if hops > 0 {
        EndsAfterWalk(fetch, fetch(r.links[k].href), hops - 1, n - 1, q);
      }
    }
  }

  /**
   * A page that following `n >= 1` "next" links leads back to is never left:
   * the walk from it ends after no number of links.
   */
  lemma {:induction false} CycleNeverEnds(fetch: string -> Response, c: Response, n: nat, hops: nat)
    requires n >= 1 && Walk(fetch, c, n) == Some(c)
    ensures !EndsAfter(fetch, c, hops)
    decreases hops
  {
    EndsAfterWalk(fetch, c, hops, n, c);
    if n <= hops {
      CycleNeverEnds(fetch, c, n, hops - n);
    }
  }

  /**
   * Whenever the walk from `r` runs into a cycle of "next" links, however
   * long and wherever it starts, it never ends: the loop in the Python code
   * does not terminate.
   */
  lemma ReachesCycleNeverEnds(fetch: string -> Response, r: Response, m: nat,
                              c: Response, n: nat, hops: nat)
    requires Walk(fetch, r, m) == Some(c) && n >= 1 && Walk(fetch, c, n) == Some(c)
    ensures !EndsAfter(fetch, r, hops)
  {
    EndsAfterWalk(fetch, r, hops, m, c);
    if m <= hops {
      CycleNeverEnds(fetch, c, n, hops - m);
    }
  }

  /** The pages visited from `r`, in order, when the walk ends after `hops` links. */
  function Visited(fetch: string -> Response, r: Response, hops: nat): (pages: seq<Response>)
    requires EndsAfter(fetch, r, hops)
    ensures |pages| == hops + 1 && pages[0] == r
    decreases hops
  {
    match NextIndex(r.links)
    case None => [r]
    case Some(k) => [r] + Visited(fetch, fetch(r.links[k].href), hops - 1)
  }

  /**
   * The visited pages form the chain the Python code walks: `r` first, each next
   * page the response to the previous page's first "next" link, and the
   * last page without a "next" link.
   */
  lemma {:induction false} VisitedChain(fetch: string -> Response, r: Response, hops: nat)
    requires EndsAfter(fetch, r, hops)
    ensures var pages := Visited(fetch, r, hops);
      && NextIndex(pages[hops].links).None?
      && forall i :: 0 <= i < hops ==> Follows(fetch, pages[i], pages[i + 1])
    decreases hops
  {
    match NextIndex(r.links)
    case None =>
    case Some(k) =>
      var q := fetch(r.links[k].href);
      VisitedChain(fetch, q, hops - 1);
      var pages := Visited(fetch, r, hops);
      var rest := Visited(fetch, q, hops - 1);
      assert pages == [r] + rest;
      forall i | 0 < i < hops
        ensures Follows(fetch, pages[i], pages[i + 1])
      {
        assert pages[i] == rest[i - 1] && pages[i + 1] == rest[i];
      }
      assert pages[hops] == rest[hops - 1];
  }

  /**
   * One step of the walk from `first`: when `done` are the pages before `r`,
   * a page `r` with a "next" link joins them and the walk goes on from the
   * response to that link; a page without one is the last.
   */
  lemma VisitedStep(fetch: string -> Response, first: Response, hops: nat,
                    done: seq<Response>, r: Response, left: nat)
    requires EndsAfter(fetch, first, hops) && EndsAfter(fetch, r, left)
    requires done + Visited(fetch, r, left) == Visited(fetch, first, hops)
    ensures NextIndex(r.links).None? ==> left == 0 && done + [r] == Visited(fetch, first, hops)
    ensures NextIndex(r.links).Some? ==>
      var q := fetch(r.links[NextIndex(r.links).value].href);
      && left > 0 && EndsAfter(fetch, q, left - 1)
      && (done + [r]) + Visited(fetch, q, left - 1) == Visited(fetch, first, hops)
  {
    match NextIndex(r.links)
    case None =>
    case Some(k) =>
      var q := fetch(r.links[k].href);
      assert Visited(fetch, r, left) == [r] + Visited(fetch, q, left - 1);
      assert (done + [r]) + Visited(fetch, q, left - 1) == done + ([r] + Visited(fetch, q, left - 1));
  }

  /** The features of `pages`, page after page, each page's in its own order. */
  function Collected(pages: seq<Response>): seq<Feature>
  {
    if pages == [] then [] else pages[0].features + Collected(pages[1..])
  }

  /** The number of features over `pages`, counted page by page. */
  function FeatureCount(pages: seq<Response>): nat
  {
    if pages == [] then 0 else |pages[0].features| + FeatureCount(pages[1..])
  }

  lemma {:induction false} CollectedSnoc(pages: seq<Response>, p: Response)
    ensures Collected(pages + [p]) == Collected(pages) + p.features
  {
    if pages == [] {
      assert [p][1..] == [];
    } else {
      assert (pages + [p])[1..] == pages[1..] + [p];
      CollectedSnoc(pages[1..], p);
    }
  }

  /** As many features are collected as the pages hold together. */
  lemma {:induction false} CollectedCount(pages: seq<Response>)
    ensures |Collected(pages)| == FeatureCount(pages)
  {
    if pages != [] {
      CollectedCount(pages[1..]);
    }
  }

  /** Feature `j` of page `i` is collected right after all features of the pages before it. */
  lemma {:induction false} CollectedAt(pages: seq<Response>, i: nat, j: nat)
    requires i < |pages| && j < |pages[i].features|
    ensures FeatureCount(pages[..i]) + j < |Collected(pages)|
    ensures Collected(pages)[FeatureCount(pages[..i]) + j] == pages[i].features[j]
  {
    CollectedCount(pages);
    if i == 0 {
      assert pages[..0] == [];
    } else {
      assert pages[1..][..i - 1] == pages[1..i];
      assert pages[..i][1..] == pages[1..i];
      CollectedAt(pages[1..], i - 1, j);
    }
  }

  /** `titles`, `s3_ids` and `polygons` take these fields of each feature. */
  function Titles(fs: seq<Feature>): seq<string>
  {
    seq(|fs|, i requires 0 <= i < |fs| => fs[i].title)
  }

  function ProductIds(fs: seq<Feature>): seq<string>
  {
    seq(|fs|, i requires 0 <= i < |fs| => fs[i].productIdentifier)
  }

  function Geometries(fs: seq<Feature>): seq<Geometry>
  {
    seq(|fs|, i requires 0 <= i < |fs| => fs[i].geometry)
  }

  lemma ProjectionsAppend(a: seq<Feature>, b: seq<Feature>)
    ensures Titles(a + b) == Titles(a) + Titles(b)
    ensures ProductIds(a + b) == ProductIds(a) + ProductIds(b)
    ensures Geometries(a + b) == Geometries(a) + Geometries(b)
  {
  }

  /**
   * Appending one more page's projections to lists that hold the projections
   * of `pages` gives the projections of `pages + [p]`.
   */
  lemma ProjectionsSnoc(t: seq<string>, ids: seq<string>, gs: seq<Geometry>, pages: seq<Response>, p: Response)
    ensures (t + Titles(Collected(pages))) + Titles(p.features) == t + Titles(Collected(pages + [p]))
    ensures (ids + ProductIds(Collected(pages))) + ProductIds(p.features) == ids + ProductIds(Collected(pages + [p]))
    ensures (gs + Geometries(Collected(pages))) + Geometries(p.features) == gs + Geometries(Collected(pages + [p]))
  {
    CollectedSnoc(pages, p);
    ProjectionsAppend(Collected(pages), p.features);
  }

  /**
   * A two-page catalogue: a first page of 20 products whose "next" link leads
   * to a page of 5 products without one yields 25 products after one link.
   */
  lemma TwoPages(fetch: string -> Response, first: Response)
    requires |first.features| == 20 && NextIndex(first.links).Some?
    requires var second := fetch(first.links[NextIndex(first.links).value].href);
      |second.features| == 5 && NextIndex(second.links).None?
    ensures EndsAfter(fetch, first, 1)
    ensures |Collected(Visited(fetch, first, 1))| == 25
  {
    var pages := Visited(fetch, first, 1);
    VisitedChain(fetch, first, 1);
    CollectedCount(pages);
    assert Follows(fetch, pages[0], pages[1]);
    assert |pages[1].features| == 5;
    assert pages[1..][1..] == [];
    assert FeatureCount(pages[1..]) == 5 + FeatureCount(pages[1..][1..]);
  }
}
