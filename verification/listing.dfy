/**
 * The per-card rules of the listing harvester `hunt_fsbo_deep`: the search
 * page address, the absolute link of a card and its for-sale filter, the
 * price text with its fallback, and the street address read off the link's
 * slug. A card is what the HTML parser hands over: the `href` of its first
 * link, the stripped text of its price element, and its stripped text
 * fragments in document order.
 */
module Listings {
  import opened Wrappers
  import opened Text

  /** Prefixed to links that are not already absolute. */
  const Origin := "https://duproprio.com"

  /** A link is kept only when it contains one of these. */
  const SaleMarkers: seq<string> := ["a-vendre", "for-sale"]

  const PriceUnknown := "Price Unknown"
  const AddressUnknown := "Address Unknown"

  /** The no-break space that the site puts inside prices. */
  const NoBreakSpace: char := '\U{A0}'

  /** Leading slug words that are not part of the street address. */
  const SlugKinds: seq<string> := ["hab", "prop"]

  /** One search-result card as the parser sees it. */
  datatype Card = Card(href: Option<string>, priceElement: Option<string>, fragments: seq<string>)

  /** One saved listing. */
  datatype Listing = Listing(address: string, priceText: string, link: string)

  /** The separator that appends a query parameter to `base`. */
  function QuerySeparator(base: string): char {
    if '?' in base then '&' else '?'
  }

  /** The address of search page `page`. */
  function PageUrl(base: string, page: nat): (url: string)
    ensures StartsWith(url, base)
    ensures |url| > |base| + 11
  {
    base + [QuerySeparator(base)] + "pageNumber=" + Decimal(page)
  }

  /** Reads the page number back out of a search page address built on `base`. */
  function PageNumber(base: string, url: string): (r: Option<nat>) {
    var n := |base| + 1 + |"pageNumber="|;
    if |url| > n && url[..|base|] == base && url[|base|] == QuerySeparator(base)
      && url[|base| + 1..n] == "pageNumber=" && AllDigits(url[n..])
    then Some(DecimalValue(url[n..]))
    else None
  }

  /** The page address carries its page number. */
  lemma PageUrlRoundTrip(base: string, page: nat)
    ensures PageNumber(base, PageUrl(base, page)) == Some(page)
  {
    var url := PageUrl(base, page);
    var n := |base| + 1 + |"pageNumber="|;
    assert url[..|base|] == base;
    assert url[|base| + 1..n] == "pageNumber=";
    assert url[n..] == Decimal(page);
    DecimalRoundTrip(page);
  }

  /** Different pages are fetched from different addresses. */
  lemma PageUrlInjective(base: string, p: nat, q: nat)
    requires p != q
    ensures PageUrl(base, p) != PageUrl(base, q)
  {
    PageUrlRoundTrip(base, p);
    PageUrlRoundTrip(base, q);
  }

  /** A link as stored: kept when it already starts with "http", else made absolute on the site. */
  function AbsoluteLink(href: string): (link: string)
    ensures StartsWith(link, "http")
    ensures EndsWith(link, href)
    ensures StartsWith(href, "http") <==> link == href
    ensures !StartsWith(href, "http") ==> StartsWith(link, Origin) && |link| == |Origin| + |href|
  {
    if StartsWith(href, "http") then href else Origin + href
  }

  /** Making an absolute link absolute again changes nothing. */
  lemma AbsoluteLinkIdempotent(href: string)
    ensures AbsoluteLink(AbsoluteLink(href)) == AbsoluteLink(href)
  {
  }

  predicate ForSale(link: string) {
    Contains(link, SaleMarkers[0]) || Contains(link, SaleMarkers[1])
  }

  /** The link a card contributes, if it has one and it is a for-sale link. */
  function CardLink(card: Card): (r: Option<string>)
    ensures r.Some? <==> card.href.Some? && ForSale(AbsoluteLink(card.href.value))
    ensures r.Some? ==> r.value == AbsoluteLink(card.href.value)
  {
    match card.href
    case None => None
    case Some(href) =>
      var link := AbsoluteLink(href);
      if ForSale(link) then Some(link) else None
  }

  /** The index of the first fragment containing `c`. */
  function FirstContaining(fragments: seq<string>, c: char): (r: Option<nat>)
    ensures r.None? <==> forall k :: 0 <= k < |fragments| ==> c !in fragments[k]
    ensures r.Some? ==> r.value < |fragments| && c in fragments[r.value]
    ensures r.Some? ==> forall k :: 0 <= k < r.value ==> c !in fragments[k]
    decreases |fragments|
  {
    if |fragments| == 0 then None
    else if c in fragments[0] then Some(0)
    else
      match FirstContaining(fragments[1..], c)
      case None => None
      case Some(k) => Some(k + 1)
  }

  /** A no-break space reads as a plain space. */
  function PlainSpaces(s: string): (r: string)
    ensures |r| == |s| && NoBreakSpace !in r
    ensures forall i :: 0 <= i < |s| && s[i] != NoBreakSpace ==> r[i] == s[i]
    ensures forall i :: 0 <= i < |s| && s[i] == NoBreakSpace ==> r[i] == ' '
  {
    ReplaceChar(s, NoBreakSpace, ' ')
  }

  /**
   * The price text of a card: the price element's text when there is one,
   * else the first fragment with a dollar sign, else "Price Unknown".
   */
  function PriceText(card: Card): (r: string)
    ensures NoBreakSpace !in r
    ensures card.priceElement.Some? ==> |r| == |card.priceElement.value|
    ensures card.priceElement.None? ==> (r == PriceUnknown <==> forall k :: 0 <= k < |card.fragments| ==> '$' !in card.fragments[k])
    ensures card.priceElement.Some? ==> r == PlainSpaces(card.priceElement.value)
    ensures card.priceElement.None? && FirstContaining(card.fragments, '$').Some? ==>
      r == PlainSpaces(card.fragments[FirstContaining(card.fragments, '$').value]) && '$' in r
  {
    match card.priceElement
    case Some(text) => PlainSpaces(text)
    case None =>
      match FirstContaining(card.fragments, '$')
      case Some(k) =>
        var r := PlainSpaces(card.fragments[k]);
        assert '$' in r by {
          var i :| 0 <= i < |card.fragments[k]| && card.fragments[k][i] == '$';
          assert r[i] == '$';
        }
        assert '$' !in PriceUnknown;
        r
      case None => PriceUnknown
  }

  /** A price element with no no-break space is saved exactly as it reads. */
  lemma PriceTextAsRead(card: Card)
    requires card.priceElement.Some? && NoBreakSpace !in card.priceElement.value
    ensures PriceText(card) == card.priceElement.value
  {
    var text := card.priceElement.value;
    assert forall i :: 0 <= i < |text| ==> text[i] != NoBreakSpace;
  }

  /** The slug words that spell the address: the last word (the listing number) and a leading kind word are dropped. */
  function AddressWords(parts: seq<string>): (words: seq<string>)
    requires |parts| >= 1
    ensures parts[0] in SlugKinds ==> |words| == if |parts| >= 2 then |parts| - 2 else 0
    ensures parts[0] in SlugKinds && |parts| >= 2 ==> words == parts[1..|parts| - 1]
    ensures parts[0] !in SlugKinds ==> words == parts[..|parts| - 1]
    ensures forall k :: 0 <= k < |words| ==> words[k] in parts
  {
    if parts[0] in SlugKinds then
      (if |parts| >= 2 then parts[1..|parts| - 1] else [])
    else parts[..|parts| - 1]
  }

  /**
   * The street address of a listing read off its link: the last path
   * segment, split at dashes, the address words joined with spaces and
   * title-cased.
   */
  function SlugAddress(link: string): (address: string)
    ensures '/' !in address && '-' !in address
  {
    var segments := Split(link, '/');
    var parts := Split(segments[|segments| - 1], '-');
    SplitKeepsFree(segments[|segments| - 1], '-', '/');
    var words := AddressWords(parts);
    JoinFree(words, " ", '/');
    JoinFree(words, " ", '-');
    var joined := Join(words, " ");
    var address := TitleCase(joined);
    TitleCaseFree(joined, '/');
    TitleCaseFree(joined, '-');
    address
  }

  /** The record saved for a new link. */
  function NewListing(link: string, card: Card): (l: Listing)
    ensures l.link == link && l.address == SlugAddress(link) && l.priceText == PriceText(card)
  {
    Listing(SlugAddress(link), PriceText(card), link)
  }

  /** What a card contributes: a listing under its link when that is a for-sale link, else nothing. */
  function CardEntry(card: Card): (e: Option<Listing>)
    ensures e.Some? <==> CardLink(card).Some?
    ensures e.Some? ==> e.value == NewListing(CardLink(card).value, card)
    ensures e.Some? ==> StartsWith(e.value.link, "http") && ForSale(e.value.link)
  {
    match CardLink(card)
    case None => None
    case Some(link) => Some(NewListing(link, card))
  }

  /**
   * A link whose last segment is a kind word or nothing, the address words
   * and the listing number joined by dashes yields those words, spaced and
   * title-cased.
   */
  lemma {:induction false} SlugAddressOf(path: string, kind: seq<string>, words: seq<string>, id: string)
    requires |kind| <= 1 && (|kind| == 1 ==> kind[0] in SlugKinds)
    requires |kind| == 0 ==> |words| >= 1 && words[0] !in SlugKinds
    requires forall k :: 0 <= k < |kind| ==> '/' !in kind[k] && '-' !in kind[k]
    requires forall k :: 0 <= k < |words| ==> '/' !in words[k] && '-' !in words[k]
    requires '/' !in id && '-' !in id
    ensures SlugAddress(path + "/" + Join(kind + words + [id], "-")) == TitleCase(Join(words, " "))
  {
    var parts := kind + words + [id];
    PartsFree(kind, words, id);
    var slug := Join(parts, "-");
    JoinFree(parts, "-", '/');
    LastSegment(path, slug);
    SplitJoin(parts, '-');
    WordsOfParts(kind, words, id);
  }

  /** No piece of a slug holds a slash or a dash. */
  lemma PartsFree(kind: seq<string>, words: seq<string>, id: string)
    requires forall k :: 0 <= k < |kind| ==> '/' !in kind[k] && '-' !in kind[k]
    requires forall k :: 0 <= k < |words| ==> '/' !in words[k] && '-' !in words[k]
    requires '/' !in id && '-' !in id
    ensures forall k :: 0 <= k < |kind + words + [id]| ==> '-' !in (kind + words + [id])[k] && '/' !in (kind + words + [id])[k]
  {
    var parts := kind + words + [id];
    forall k | 0 <= k < |parts| ensures '-' !in parts[k] && '/' !in parts[k] {
      if k < |kind| {
        assert parts[k] == kind[k];
      } else if k < |kind| + |words| {
        assert parts[k] == words[k - |kind|];
      } else {
        assert parts[k] == id;
      }
    }
  }

  /** The last segment of a link ending in a slash-free slug is that slug. */
  lemma LastSegment(path: string, slug: string)
    requires '/' !in slug
    ensures var segments := Split(path + "/" + slug, '/'); segments[|segments| - 1] == slug
  {
    SplitConcat(path, '/', slug);
    SplitFree(slug, '/');
    assert path + "/" + slug == path + ['/'] + slug;
  }

  /** The address words of a slug are the words between the kind word, if any, and the listing number. */
  lemma WordsOfParts(kind: seq<string>, words: seq<string>, id: string)
    requires |kind| <= 1 && (|kind| == 1 ==> kind[0] in SlugKinds)
    requires |kind| == 0 ==> |words| >= 1 && words[0] !in SlugKinds
    ensures AddressWords(kind + words + [id]) == words
  {
    var parts := kind + words + [id];
    if |kind| == 1 {
      assert parts[0] == kind[0];
      assert parts[1..|parts| - 1] == words;
    } else {
      assert parts[0] == words[0];
      assert parts[..|parts| - 1] == words;
    }
  }

  /** A link ending in "/" has an empty last segment, and so an empty address. */
  lemma TrailingSlashEmpty(path: string)
    ensures SlugAddress(path + "/") == ""
  {
    assert path + "/" == path + ['/'] + "";
    SplitConcat(path, '/', "");
    SplitFree("", '/');
    SplitFree("", '-');
    assert "" !in SlugKinds;
  }

  /** The words "address unknown" spaced out and title-cased give exactly the placeholder address. */
  lemma PlaceholderWords(words: seq<string>)
    requires words == ["address", "unknown"]
    ensures TitleCase(Join(words, " ")) == AddressUnknown
  {
    var joined := Join(words, " ");
    assert joined == "address unknown";
    var r := TitleCase(joined);
    assert |r| == |AddressUnknown|;
    forall i | 0 <= i < |r| ensures r[i] == AddressUnknown[i] {
      if i == 0 || i == 8 {
        assert r[i] == ToUpper(joined[i]);
      } else {
        assert IsCased(joined[i - 1]) <==> i != 8;
        assert r[i] == ToLower(joined[i]);
        assert AddressUnknown[i] == joined[i];
      }
    }
  }

  /**
   * A listing whose slug reads "address-unknown-<number>" gets the
   * placeholder address, so the final filter can drop real listings.
   */
  lemma PlaceholderSlug(path: string, id: string)
    requires '/' !in id && '-' !in id
    ensures SlugAddress(path + "/" + Join(["address", "unknown", id], "-")) == AddressUnknown
  {
    var words := ["address", "unknown"];
    assert '/' !in words[0] && '-' !in words[0] && '/' !in words[1] && '-' !in words[1];
    assert words[0] !in SlugKinds;
    SlugAddressOf(path, [], words, id);
    assert [] + words + [id] == ["address", "unknown", id];
    PlaceholderWords(words);
  }
}
