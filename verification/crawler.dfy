/**
 * The page loop of the harvester as the source runs it, checked against
 * the functional crawl of `Harvest`.
 */
module Crawler {
  import opened Listings
  import opened Harvest

  /**
   * One pass of the source's page loop on page `page`: fetch and scan it,
   * then clear `keep_hunting` on a failure or an empty page, or bump the page
   * counter and clear it when the counter passes the limit.
   */
  method HuntPage(base: string, fetch: string -> Page, page: nat, store: Store)
    returns (next: Store, nextPage: nat, keepHunting: bool, stop: StopReason)
    requires 1 <= page <= MaxPage
    ensures keepHunting ==>
      nextPage == page + 1 <= MaxPage && CrawlFrom(base, fetch, nextPage, next) == CrawlFrom(base, fetch, page, store)
    ensures !keepHunting ==>
      page <= nextPage <= MaxPage + 1 && Crawl(next, page, stop) == CrawlFrom(base, fetch, page, store)
  {
    next, nextPage, keepHunting, stop := store, page, true, NoNewListings;
    match fetch(PageUrl(base, page))
    case Failed =>
      keepHunting, stop := false, FetchError;
    case Loaded(cards) =>
      var scan := ScanCards(store, cards);
      next := scan.store;
      if scan.found == 0 {
        keepHunting := false;
      } else {
        nextPage := page + 1;
        if nextPage > MaxPage {
          keepHunting, stop := false, PageLimit;
        }
      }
  }

  /** The addresses of search pages 1 to `n`, in order. */
  function Requests(base: string, n: nat): (urls: seq<string>)
    ensures |urls| == n
  {
    if n == 0 then [] else Requests(base, n - 1) + [PageUrl(base, n)]
  }

  /** The `i`-th request is for page `i + 1`. */
  lemma {:induction false} RequestsAt(base: string, n: nat, i: nat)
    requires i < n
    ensures Requests(base, n)[i] == PageUrl(base, i + 1)
  {
    if i < n - 1 {
      RequestsAt(base, n - 1, i);
    }
  }

  /**
   * The crawl as the source runs it: a `keep_hunting` flag, a page counter
   * that is bumped past the last page before the limit check, and the list
   * of page addresses requested.
   */
  method Hunt(base: string, fetch: string -> Page) returns (store: Store, requested: seq<string>, stop: StopReason)
    ensures Crawl(store, |requested|, stop) == Crawled(base, fetch)
    ensures 1 <= |requested| <= MaxPage
    ensures requested == Requests(base, |requested|)
  {
    store, requested, stop := [], [], NoNewListings;
    var page := 1;
    var keepHunting := true;
    ghost var crawl := CrawlFrom(base, fetch, page, store);
    while keepHunting
      invariant 1 <= page <= MaxPage + 1 && |requested| <= page
      invariant keepHunting ==> page <= MaxPage && |requested| == page - 1
      invariant keepHunting ==> CrawlFrom(base, fetch, page, store) == crawl
      invariant !keepHunting ==> Crawl(store, |requested|, stop) == crawl
      invariant requested == Requests(base, |requested|)
      decreases MaxPage + 1 - page + (if keepHunting then 1 else 0)
    {
      requested := requested + [PageUrl(base, page)];
      store, page, keepHunting, stop := HuntPage(base, fetch, page, store);
    }
  }
}
