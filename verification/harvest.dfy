/**
 * The crawl of `hunt_fsbo_deep`: a store of listings keyed by link in
 * insertion order, the card loop that adds each new for-sale link once, the
 * page loop with its three stop rules, and the rows finally written out.
 * Fetching and parsing a page is an oracle from the page address to the
 * cards found on it, or a failure.
 */
module Harvest {
  import opened Wrappers
  import opened Text
  import opened Listings

  /** The last search page the crawl may request. */
  const MaxPage: nat := 20

  /** What fetching and parsing one search page gives. */
  datatype Page = Loaded(cards: seq<Card>) | Failed

  /**
   * The listings found so far, in insertion order: the source's dictionary
   * keyed by link, whose every value records its own key, written as the
   * list of its values.
   */
  type Store = seq<Listing>

  /** The keys of the store, in insertion order. */
  function Links(st: Store): (links: seq<string>)
    ensures |links| == |st|
    ensures forall i :: 0 <= i < |st| ==> links[i] == st[i].link
  {
    seq(|st|, i requires 0 <= i < |st| => st[i].link)
  }

  /** No link is filed twice. */
  predicate DistinctLinks(st: Store) {
    forall i, j :: 0 <= i < j < |st| ==> st[i].link != st[j].link
  }

  /** Every stored link is an absolute for-sale link. */
  predicate SaleLinks(st: Store) {
    forall i :: 0 <= i < |st| ==> StartsWith(st[i].link, "http") && ForSale(st[i].link)
  }

  /** `later` extends `earlier`: nothing is removed, overwritten or reordered. */
  predicate Extends(later: Store, earlier: Store) {
    |earlier| <= |later| && later[..|earlier|] == earlier
  }

  /** A card's entry can be filed: its link is an absolute for-sale link. */
  predicate SaleEntry(e: Option<Listing>) {
    e.Some? ==> StartsWith(e.value.link, "http") && ForSale(e.value.link)
  }

  /** The entries of a page's cards, in document order. */
  function Entries(cards: seq<Card>): (entries: seq<Option<Listing>>)
    ensures |entries| == |cards|
    ensures forall k :: 0 <= k < |cards| ==> entries[k] == CardEntry(cards[k]) && SaleEntry(entries[k])
  {
    seq(|cards|, k requires 0 <= k < |cards| => CardEntry(cards[k]))
  }

  /** The effect of one card: a listing under a link not yet stored is added at the end; anything else changes nothing. */
  function ScanEntry(st: Store, e: Option<Listing>): (r: Store)
    ensures Extends(r, st) && |r| <= |st| + 1
    ensures |r| == |st| + 1 <==> e.Some? && e.value.link !in Links(st)
    ensures |r| == |st| + 1 ==> r[|st|] == e.value
    ensures DistinctLinks(st) ==> DistinctLinks(r)
    ensures SaleLinks(st) && SaleEntry(e) ==> SaleLinks(r)
  {
    match e
    case None => st
    case Some(listing) =>
      if listing.link in Links(st) then st
      else
        var r := st + [listing];
        assert r[..|st|] == st;
        r
  }

  /** The card loop over one page and the number of new listings it found. */
  datatype Scan = Scan(store: Store, found: nat)

  function ScanEntries(st: Store, entries: seq<Option<Listing>>): (r: Scan)
    ensures Extends(r.store, st)
    ensures r.found == |r.store| - |st|
    ensures r.found <= |entries|
    ensures DistinctLinks(st) ==> DistinctLinks(r.store)
    ensures SaleLinks(st) && (forall k :: 0 <= k < |entries| ==> SaleEntry(entries[k])) ==> SaleLinks(r.store)
    decreases |entries|
  {
    if |entries| == 0 then Scan(st, 0)
    else
      var first := ScanEntry(st, entries[0]);
      var rest := ScanEntries(first, entries[1..]);
      Scan(rest.store, rest.found + |first| - |st|)
  }

  /** The card loop of one page. */
  function ScanCards(st: Store, cards: seq<Card>): (r: Scan)
    ensures Extends(r.store, st)
    ensures r.found == |r.store| - |st|
    ensures r.found <= |cards|
    ensures DistinctLinks(st) ==> DistinctLinks(r.store)
    ensures SaleLinks(st) ==> SaleLinks(r.store)
  {
    ScanEntries(st, Entries(cards))
  }

  /** The links an entry adds to a store with keys `seen`: its link when that is new, else none. */
  function EntryAdds(seen: seq<string>, e: Option<Listing>): (links: seq<string>)
    ensures |links| <= 1
  {
    if e.Some? && e.value.link !in seen then [e.value.link] else []
  }

  /** The distinct links of `entries` that are not in `seen`, in order of first appearance. */
  function NewLinks(seen: seq<string>, entries: seq<Option<Listing>>): (links: seq<string>)
    ensures forall i :: 0 <= i < |links| ==> links[i] !in seen
    decreases |entries|
  {
    if |entries| == 0 then []
    else
      var adds := EntryAdds(seen, entries[0]);
      adds + NewLinks(seen + adds, entries[1..])
  }

  /** The record an entry files in a store with keys `seen`: its listing when the link is new, else none. */
  function EntryRecords(seen: seq<string>, e: Option<Listing>): (records: seq<Listing>)
    ensures |records| <= 1
    ensures Links(records) == EntryAdds(seen, e)
  {
    if e.Some? && e.value.link !in seen then [e.value] else []
  }

  /**
   * The records `entries` file in a store with keys `seen`: for each link
   * that is new, the listing of its first entry, in order of first appearance.
   */
  function NewRecords(seen: seq<string>, entries: seq<Option<Listing>>): (records: seq<Listing>)
    ensures forall i :: 0 <= i < |records| ==> records[i].link !in seen && Some(records[i]) in entries
    decreases |entries|
  {
    if |entries| == 0 then []
    else
      var first := EntryRecords(seen, entries[0]);
      var rest := NewRecords(seen + EntryAdds(seen, entries[0]), entries[1..]);
      assert forall i :: 0 <= i < |rest| ==> Some(rest[i]) in entries by {
        forall i | 0 <= i < |rest| ensures Some(rest[i]) in entries {
          var k :| 0 <= k < |entries[1..]| && entries[1..][k] == Some(rest[i]);
          assert entries[k + 1] == Some(rest[i]);
        }
      }
      first + rest
  }

  /** One entry extends the store's keys by exactly what it adds. */
  lemma ScanEntryLinks(st: Store, e: Option<Listing>)
    ensures Links(ScanEntry(st, e)) == Links(st) + EntryAdds(Links(st), e)
  {
    var r := ScanEntry(st, e);
    if |r| == |st| + 1 {
      assert r == st + [r[|st|]];
    } else {
      assert r == st;
    }
  }

  /**
   * The card loop appends exactly the new links of the page, in order:
   * `found_on_page` counts the links seen neither on earlier pages nor
   * earlier on this page.
   */
  lemma {:induction false} ScanEntriesAppends(st: Store, entries: seq<Option<Listing>>)
    ensures Links(ScanEntries(st, entries).store) == Links(st) + NewLinks(Links(st), entries)
    ensures ScanEntries(st, entries).found == |NewLinks(Links(st), entries)|
    ensures ScanEntries(st, entries).store == st + NewRecords(Links(st), entries)
    decreases |entries|
  {
    if |entries| == 0 {
      assert Links(st) + [] == Links(st);
      assert st + [] == st;
    } else {
      var first := ScanEntry(st, entries[0]);
      var adds := EntryAdds(Links(st), entries[0]);
      var later := NewLinks(Links(st) + adds, entries[1..]);
      ScanEntriesAppends(first, entries[1..]);
      ScanEntryLinks(st, entries[0]);
      assert NewLinks(Links(st), entries) == adds + later;
      ConcatAssoc(Links(st), adds, later);
      var records := EntryRecords(Links(st), entries[0]);
      var laterRecords := NewRecords(Links(st) + adds, entries[1..]);
      assert first == st + records;
      assert NewRecords(Links(st), entries) == records + laterRecords;
      ConcatAssoc(st, records, laterRecords);
    }
  }

  /** Entries that are all missing or already filed add no link. */
  lemma {:induction false} NoNewLinks(seen: seq<string>, entries: seq<Option<Listing>>)
    requires forall k :: 0 <= k < |entries| && entries[k].Some? ==> entries[k].value.link in seen
    ensures NewLinks(seen, entries) == []
    decreases |entries|
  {
    if |entries| > 0 {
      assert EntryAdds(seen, entries[0]) == [];
      assert seen + [] == seen;
      NoNewLinks(seen, entries[1..]);
    }
  }

  /** Why the crawl stopped. */
  datatype StopReason = FetchError | NoNewListings | PageLimit

  /** The end state of the crawl: the store, the number of pages requested, and why it stopped. */
  datatype Crawl = Crawl(store: Store, pages: nat, stop: StopReason)

  /**
   * The crawl from page `page` on: fetch the page; stop on a failure or
   * when it adds nothing new; otherwise go on to the next page unless that
   * would pass the page limit.
   */
  function CrawlFrom(base: string, fetch: string -> Page, page: nat, st: Store): (c: Crawl)
    requires 1 <= page <= MaxPage
    ensures Extends(c.store, st)
    ensures page <= c.pages <= MaxPage
    ensures c.stop == PageLimit ==> c.pages == MaxPage
    ensures c.stop == FetchError ==> fetch(PageUrl(base, c.pages)).Failed?
    ensures |c.store| - |st| >= c.pages - page
    ensures DistinctLinks(st) ==> DistinctLinks(c.store)
    ensures SaleLinks(st) ==> SaleLinks(c.store)
    decreases MaxPage - page
  {
    match fetch(PageUrl(base, page))
    case Failed => Crawl(st, page, FetchError)
    case Loaded(cards) =>
      var scan := ScanCards(st, cards);
      if scan.found == 0 then Crawl(scan.store, page, NoNewListings)
      else if page + 1 > MaxPage then Crawl(scan.store, page, PageLimit)
      else CrawlFrom(base, fetch, page + 1, scan.store)
  }

  /**
   * Where the crawl stops: on its first page exactly when that page failed,
   * added nothing, or is page 20; it moves on only from a page that loaded
   * and added something; and a stop for lack of new listings follows a page
   * that loaded.
   */
  lemma CrawlFromStops(base: string, fetch: string -> Page, page: nat, st: Store)
    requires 1 <= page <= MaxPage
    ensures var c := CrawlFrom(base, fetch, page, st);
      && (c.pages == page ==>
            fetch(PageUrl(base, page)).Failed? || ScanCards(st, fetch(PageUrl(base, page)).cards).found == 0 || page == MaxPage)
      && (c.pages > page ==>
            fetch(PageUrl(base, page)).Loaded? && ScanCards(st, fetch(PageUrl(base, page)).cards).found > 0)
      && (c.stop == NoNewListings ==> fetch(PageUrl(base, c.pages)).Loaded?)
    decreases MaxPage - page
  {
    var c := CrawlFrom(base, fetch, page, st);
    if c.pages > page {
      var scan := ScanCards(st, fetch(PageUrl(base, page)).cards);
      CrawlFromStops(base, fetch, page + 1, scan.store);
    }
  }

  /**
   * A page whose for-sale links are all stored already ends the crawl there,
   * with the store unchanged.
   */
  lemma SeenPageStops(base: string, fetch: string -> Page, page: nat, st: Store, cards: seq<Card>)
    requires 1 <= page <= MaxPage
    requires fetch(PageUrl(base, page)) == Loaded(cards)
    requires forall k :: 0 <= k < |cards| && CardLink(cards[k]).Some? ==> CardLink(cards[k]).value in Links(st)
    ensures CrawlFrom(base, fetch, page, st) == Crawl(st, page, NoNewListings)
  {
    var entries := Entries(cards);
    NoNewLinks(Links(st), entries);
    ScanEntriesAppends(st, entries);
    var scan := ScanCards(st, cards);
    assert scan.found == 0;
    assert scan.store == scan.store[..|st|];
  }

  /**
   * The store after scanning search pages 1 to `n` in turn, a failed page
   * adding nothing, whatever the stop rules would say.
   */
  function StoreAfter(base: string, fetch: string -> Page, n: nat): (st: Store)
    decreases n
  {
    if n == 0 then []
    else
      match fetch(PageUrl(base, n))
      case Failed => StoreAfter(base, fetch, n - 1)
      case Loaded(cards) => ScanCards(StoreAfter(base, fetch, n - 1), cards).store
  }

  /** Page `p` loaded and added at least one listing to the store. */
  predicate Productive(base: string, fetch: string -> Page, p: nat)
    requires p >= 1
  {
    fetch(PageUrl(base, p)).Loaded? && |StoreAfter(base, fetch, p)| > |StoreAfter(base, fetch, p - 1)|
  }

  /**
   * The crawl `c`, begun at page `first`, is explained page by page: every
   * page it requested before the last was productive, the last one failed,
   * added nothing, or was the last page allowed, and the store is what those
   * pages built.
   */
  predicate PagesExplained(base: string, fetch: string -> Page, first: nat, c: Crawl) {
    && 1 <= first <= c.pages
    && c.store == StoreAfter(base, fetch, c.pages)
    && (forall p :: first <= p < c.pages ==> Productive(base, fetch, p))
    && (c.stop == FetchError ==> fetch(PageUrl(base, c.pages)).Failed?)
    && (c.stop == NoNewListings ==>
          fetch(PageUrl(base, c.pages)).Loaded? && c.store == StoreAfter(base, fetch, c.pages - 1))
    && (c.stop == PageLimit ==> c.pages == MaxPage && Productive(base, fetch, MaxPage))
  }

  /** A crawl resumed at `page` on the store the pages before it built is explained page by page. */
  lemma {:induction false} CrawlFromPages(base: string, fetch: string -> Page, page: nat, st: Store)
    requires 1 <= page <= MaxPage && st == StoreAfter(base, fetch, page - 1)
    ensures PagesExplained(base, fetch, page, CrawlFrom(base, fetch, page, st))
    decreases MaxPage - page
  {
    var c := CrawlFrom(base, fetch, page, st);
    if c.pages == page {
      LastPageExplained(base, fetch, page, st);
    } else {
      var scan := ScanCards(st, fetch(PageUrl(base, page)).cards);
      NextPage(base, fetch, page, st);
      CrawlFromPages(base, fetch, page + 1, scan.store);
      ExplainedEarlier(base, fetch, page, c);
    }
  }

  /** A crawl that stops on the page it starts from is explained by that page. */
  lemma LastPageExplained(base: string, fetch: string -> Page, page: nat, st: Store)
    requires 1 <= page <= MaxPage && st == StoreAfter(base, fetch, page - 1)
    requires CrawlFrom(base, fetch, page, st).pages == page
    ensures PagesExplained(base, fetch, page, CrawlFrom(base, fetch, page, st))
  {
    match fetch(PageUrl(base, page))
    case Failed =>
    case Loaded(cards) =>
      var scan := ScanCards(st, cards);
      assert StoreAfter(base, fetch, page) == scan.store;
      if scan.found == 0 {
        assert scan.store == scan.store[..|st|];
      } else {
        assert Productive(base, fetch, page);
      }
  }

  /** A crawl that goes past its first page moves on from a productive page with the store it built. */
  lemma NextPage(base: string, fetch: string -> Page, page: nat, st: Store)
    requires 1 <= page <= MaxPage && st == StoreAfter(base, fetch, page - 1)
    requires CrawlFrom(base, fetch, page, st).pages != page
    ensures page < MaxPage && fetch(PageUrl(base, page)).Loaded?
    ensures var next := ScanCards(st, fetch(PageUrl(base, page)).cards).store;
      next == StoreAfter(base, fetch, page) &&
      CrawlFrom(base, fetch, page, st) == CrawlFrom(base, fetch, page + 1, next)
    ensures Productive(base, fetch, page)
  {
  }

  /** An explained crawl from `page + 1` whose page `page` was productive is explained from `page`. */
  lemma ExplainedEarlier(base: string, fetch: string -> Page, page: nat, c: Crawl)
    requires 1 <= page && PagesExplained(base, fetch, page + 1, c) && Productive(base, fetch, page)
    ensures PagesExplained(base, fetch, page, c)
  {
  }

  /**
   * The whole crawl, from the first page and an empty store, explained page
   * by page.
   */
  function Crawled(base: string, fetch: string -> Page): (c: Crawl)
    ensures DistinctLinks(c.store) && SaleLinks(c.store)
    ensures 1 <= c.pages <= MaxPage
    ensures |c.store| >= c.pages - 1
    ensures PagesExplained(base, fetch, 1, c)
  {
    CrawlFromPages(base, fetch, 1, []);
    CrawlFrom(base, fetch, 1, [])
  }

  /** Drops the rows whose address is the placeholder, keeping the order. */
  function KnownAddresses(rows: seq<Listing>): (r: seq<Listing>)
    ensures |r| <= |rows|
    ensures forall k :: 0 <= k < |r| ==> r[k].address != AddressUnknown && r[k] in rows
    ensures forall i :: 0 <= i < |rows| && rows[i].address != AddressUnknown ==> rows[i] in r
    ensures DistinctLinks(rows) ==> DistinctLinks(r)
    decreases |rows|
  {
    if |rows| == 0 then []
    else if rows[0].address != AddressUnknown then [rows[0]] + KnownAddresses(rows[1..])
    else KnownAddresses(rows[1..])
  }

  /** The filter keeps the original order: filtering a concatenation concatenates the filtered parts. */
  lemma {:induction false} KnownAddressesAppend(a: seq<Listing>, b: seq<Listing>)
    ensures KnownAddresses(a + b) == KnownAddresses(a) + KnownAddresses(b)
    decreases |a|
  {
    if |a| > 0 {
      assert (a + b)[0] == a[0];
      assert (a + b)[1..] == a[1..] + b;
      KnownAddressesAppend(a[1..], b);
    } else {
      assert a + b == b;
    }
  }

  /**
   * What is written out: nothing when the store is empty, otherwise the
   * rows with a known address in insertion order (possibly none).
   */
  function SavedRows(st: Store): (r: Option<seq<Listing>>)
    ensures r.None? <==> |st| == 0
    ensures r.Some? ==> forall k :: 0 <= k < |r.value| ==> r.value[k].address != AddressUnknown && r.value[k] in st
    ensures r.Some? ==> forall i :: 0 <= i < |st| && st[i].address != AddressUnknown ==> st[i] in r.value
    ensures r.Some? && DistinctLinks(st) ==> DistinctLinks(r.value)
  {
    if |st| == 0 then None else Some(KnownAddresses(st))
  }
}
