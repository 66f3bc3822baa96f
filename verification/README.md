# FSBO lead tool: address cleaning, geocoding pass and listing harvester

A Dafny model of the logic at the core of a small "for sale by owner" lead tool for one Montreal neighbourhood. It has three parts:

- **Address normaliser** (`clean_address`). It rejects blank, sold ("vendu") and non-digit-led addresses. It then applies the neighbourhood's table of literal fix-ups, each once and in order. A key at the end of the address is rewritten only there; otherwise every occurrence is rewritten. Finally it removes a trailing unit number (`\s+\d{1,3}$`), drops a spurious leading unit number (`^\d{1,5}\s+(\d{3,5}\s+.*)`) and trims. The two regular expressions are written as hand-made token functions: every repetition takes a maximal run, `$` also matches before a final newline, and `.` stops at a newline.
- **Geocoding pass** (`run_geocoder`). It normalises the headers and picks the address column by priority. Each row's address is cleaned and looked up with the city suffix ", Montreal, QC". The pass retries without the suffix only when that lookup finds nothing, and keeps only the rows that got coordinates. The geocoding service is an abstract oracle from a query to `Found(location)`, `NotFound` or `Raised`. Coordinates are values of an opaque type.
- **Listing harvester** (`hunt_fsbo_deep`). It builds the search-page address and makes card links absolute. It keeps only for-sale links, and stores each link once in insertion order; only new links count as found on a page. It falls back through three price sources and reads the street address off the link's slug. The page loop stops on a fetch failure, on a page with nothing new, or at page 20. It then writes out the stored rows whose address is not "Address Unknown". Fetching and parsing a page is an oracle from the page address to the page's cards, or a failure.

Modules:
- `Wrappers` holds `Option` and `Result`.
- `Text` models the Python string primitives used: `strip`, `lower`, `in`, `replace`, `split`, `join`, `title` and `str(n)`.
- `Address` is the normaliser. `AddressExamples` proves worked examples of the whole normaliser.
- `Geocoding` holds the per-row rules and the filter. `GeocoderPass` is the row loop as the source runs it, checked against those rules.
- `Listings` holds the per-card rules.
- `Harvest` is the functional crawl and the output filter. `Crawler` is the `keep_hunting` loop as the source runs it, checked against the functional crawl.

Behaviour of the code as written that the model reproduces and proves:
- A slug reading `address-unknown-<number>` gives exactly the placeholder address "Address Unknown" (`Listings.PlaceholderSlug`). So the final filter can drop a real listing. The `except` branch that would produce the placeholder cannot fire, because splitting and slicing never raise.
- A link ending in "/" gets an empty address (`Listings.TrailingSlashEmpty`). Such a row is kept by the final filter.
- The first fix-up, "Montp" to "Montpetit", has no word boundary. An address that already reads "123 Montpetit" cleans to "123 Montpetitetit" (`AddressExamples.MontpetitExample`).
- The comment at geocoder.py:133 says the row's `except` is there to catch timeouts. An exception from the suffixed lookup also skips the retry without the suffix. The model follows the code (`Geocoding.Locate`). The rate limiter turns geocoder errors into "no result", which does trigger the retry. Other exceptions reach the row's `except`.

## Model

| member | source | states |
|---|---|---|
| Address.CleanAddress | geocoder.py:19-27 | The result is `None` exactly when the value is not a string, or its trimmed text is empty, contains "vendu" in any letter case, or does not start with a digit. Any result is non-empty, starts with a digit and has no surrounding whitespace. |
| Address.Normalize | geocoder.py:43-57 | The four rewriting steps keep an address non-empty and digit-led, and leave it trimmed. |
| Address.ApplyRewrite | geocoder.py:44-47 | When the address ends with the key, only that trailing occurrence is rewritten. The prefix before it is unchanged, the result ends with the replacement, and the length changes by the length difference. An address without the key is unchanged. A leading digit is kept. |
| Address.ApplyRewriteInside | geocoder.py:46-47 | When the key occurs but not at the end, the text before its first occurrence is kept, that occurrence becomes the replacement, and the text after it is rewritten the same way, so every non-overlapping occurrence is replaced from the left. |
| Address.ApplyRewrites | geocoder.py:43-47 | Running the fix-up table keeps a leading digit in place. |
| Address.ApplyRewritesAppend | geocoder.py:43-47 | Running two tables one after the other is the same as running their concatenation: entries apply once each, in table order. |
| Address.ApplyRewritesAt | geocoder.py:43-47 | The table run is the entries before `k`, then entry `k` on their output, then the entries after it. |
| Address.ApplyRewritesUnchanged | geocoder.py:43-47 | An address containing none of the keys passes through the table unchanged. |
| Address.RewritesSkip | geocoder.py:30-47 | An address without the letters M, C, B and A is unchanged by the whole fix-up table. |
| Address.StripUnitAtEnd | geocoder.py:50 | The result is a prefix of the input, and a leading digit is kept. |
| Address.StripTrailingUnit | geocoder.py:49-50 | The result is never longer than the input and keeps its leading digit. |
| Address.StripTrailingUnitRemoves | geocoder.py:49-50 | A final token of one to three digits is removed together with the whitespace before it ("Marquette 4" becomes "Marquette"). |
| Address.StripTrailingUnitKeeps | geocoder.py:49-50 | A final digit run of length zero or more than three, or one with no whitespace before it, is kept. |
| Address.LineRest | geocoder.py:53 | What `.*` matches: the longest prefix of the text with no newline. It is all of the text when there is no newline; otherwise it stops right at the first newline. |
| Address.DropLeadingUnit | geocoder.py:52-55 | The result is never longer than the input and stays digit-led. |
| Address.CivicGroup | geocoder.py:53-55 | Group 1 of the match keeps a digit-led address digit-led and is never longer. |
| Address.DropLeadingUnitDrops | geocoder.py:52-55 | A one- to five-digit token, whitespace, a three- to five-digit token and whitespace lose the first token and its whitespace. Because `.*` stops at a newline, the rest is also cut at its first newline: the result is the civic number, its whitespace and the rest of the first line. |
| Address.DropLeadingUnitDropsLine | geocoder.py:52-55 | On single-line text only the first token and its whitespace go ("5 3239 Rue X" becomes "3239 Rue X"). |
| Address.DropLeadingUnitCutsLine | geocoder.py:52-55 | A multi-line address loses its first line break and everything after it as well ("5 3239 Rue X\nMontreal" becomes "3239 Rue X"). |
| Address.LineRestStops | geocoder.py:53 | `.*` on a line followed by a newline matches exactly that line. |
| Address.DropLeadingUnitKeepsFirst | geocoder.py:52-55 | Nothing changes unless the address opens with a one- to five-digit token followed by whitespace. |
| Address.DropLeadingUnitKeepsSecond | geocoder.py:52-55 | Nothing changes when the second token is not a three- to five-digit run followed by whitespace. |
| AddressExamples.LeadingUnitExample | geocoder.py:52-55 | "5 3239 Rue Something" cleans to "3239 Rue Something". |
| AddressExamples.AbbreviationAndUnitExample | geocoder.py:34-50 | "123 Ch. Test 4" cleans to "123 Chemin Test". |
| AddressExamples.MountainSightsExample | geocoder.py:30-47 | "123 Mountain Sights" cleans to itself. The second fix-up turns it into "Mountain Sightss", and the third repairs that at the end, so the table order matters. |
| AddressExamples.MontpetitExample | geocoder.py:30-47 | "123 Montpetit" cleans to "123 Montpetitetit": the first fix-up matches inside the already spelled-out name. |
| Text.Strip | geocoder.py:20-23 | `str.strip()`: empty exactly for all-whitespace input; otherwise it neither starts nor ends with whitespace. It is the text that starts right after the leading whitespace run and is followed only by whitespace. |
| Text.StripIdempotent | geocoder.py:57 | Trimming twice is trimming once. |
| Text.Lower | geocoder.py:26 | `str.lower()`: the same length, each character lower-cased. |
| Text.ContainsIff | geocoder.py:46 | The `in` test holds exactly when the pattern occurs at some index. |
| Text.ReplaceAll | geocoder.py:47 | `str.replace`: a text without the pattern is unchanged, and a first character that does not start an occurrence is kept. |
| Text.ReplaceAllLeftmost | geocoder.py:47 | The leftmost occurrence is replaced and the scan resumes right after it. |
| Text.ReplaceChar | scraper.py:66 | Replacing one character by another keeps the length and every other character, and leaves none of the old one. |
| Text.Split | scraper.py:76-77 | `str.split` on one character gives at least one piece, none of which contains the separator. |
| Text.JoinSplit | scraper.py:76-82 | Joining the pieces of a split with the separator gives back the text. |
| Text.SplitJoin | scraper.py:76-82 | Splitting a join of separator-free pieces gives back the pieces. |
| Text.SplitConcat | scraper.py:76 | Splitting `a + sep + b` splits `a` and `b` independently. |
| Text.TitleCase | scraper.py:82 | `str.title()` on ASCII: the same length; a letter right after a cased letter is lower-cased and every other letter upper-cased. |
| Text.Decimal | scraper.py:27 | `str(n)`: a non-empty run of digits with no leading zero. |
| Text.DecimalRoundTrip | scraper.py:27 | Reading back the decimal text of `n` gives `n`. |
| Geocoding.NormalizeHeaders | geocoder.py:72 | Every header is trimmed and lower-cased, in place. |
| Geocoding.NormalizeHeaderIdempotent | geocoder.py:72 | Normalising a normalised header changes nothing. |
| Geocoding.FirstPresent | geocoder.py:78-81 | The index of the first candidate present, with none before it present; `None` exactly when no candidate is present. |
| Geocoding.ChooseColumn | geocoder.py:74-85 | The column is the first of address, location, title, addr present among the normalised headers. There is none exactly when none is present. |
| Geocoding.ColumnIndex | geocoder.py:100 | The position of the first column with the chosen name. |
| Geocoding.Locate | geocoder.py:113-137 | A location is found exactly when the suffixed lookup finds one, or finds nothing (without raising) and the plain retry finds one. It is that lookup's location. |
| Geocoding.GeocodeRow | geocoder.py:99-137 | Each row gets one latitude, one longitude and one clean address. The clean address is `CleanAddress` of the cell. Both coordinates are present together, and exactly when the address cleans and is located. The latitude and the longitude are those of the location found. |
| Geocoding.KeptIff | geocoder.py:99-144 | A row survives the final filter exactly when its address cleans and either the suffixed lookup hits, or it misses and the plain retry hits. |
| Geocoding.JunkNeverKept | geocoder.py:103-108 | A row whose address does not clean gets three empty columns. |
| Geocoding.KeepLocated | geocoder.py:144 | The filter keeps only located rows, keeps every located row, and never yields more rows than it was given. |
| Geocoding.KeepLocatedAppend | geocoder.py:144 | The filter keeps the original order: filtering a concatenation concatenates the filtered parts. |
| Geocoding.Annotate | geocoder.py:99-142 | The three new columns have one entry per row. |
| Geocoding.AnnotateAt | geocoder.py:99-142 | Row `k` of the output is input row `k` with its own lookup. |
| Geocoding.KeptExactly | geocoder.py:99-144 | Every row written out is a located input row with a non-empty, digit-led clean address. Every input row that is located is written out. |
| GeocoderPass.LookUp | geocoder.py:113-137 | The two-call lookup agrees with `Locate`. |
| GeocoderPass.GeocodeOne | geocoder.py:100-137 | One iteration of the row loop agrees with `GeocodeRow`. |
| GeocoderPass.GeocodeRows | geocoder.py:93-142 | The row loop yields exactly one annotated row per input row, in order. |
| GeocoderPass.RunGeocoder | geocoder.py:72-144 | The pass aborts exactly when no address column exists. Otherwise it yields the located rows of the annotated table, in order, all located and no more than the input. |
| Listings.PageUrl | scraper.py:26-27 | The page address starts with the base and is longer than it plus the parameter name. |
| Listings.PageUrlRoundTrip | scraper.py:26-27 | The page number can be read back from the page address. |
| Listings.PageUrlInjective | scraper.py:26-27 | Different pages are fetched from different addresses. |
| Listings.AbsoluteLink | scraper.py:49-53 | The link starts with "http" and ends with the href. It equals the href exactly when the href already starts with "http"; otherwise it is "https://duproprio.com" followed by the href. |
| Listings.AbsoluteLinkIdempotent | scraper.py:49-53 | Making an absolute link absolute again changes nothing. |
| Listings.CardLink | scraper.py:43-57 | A card yields a link exactly when it has an href whose absolute link contains "a-vendre" or "for-sale"; the link is that absolute link. |
| Listings.FirstContaining | scraper.py:69-72 | The first fragment containing the character, with none before it; `None` exactly when no fragment contains it. |
| Listings.PlainSpaces | scraper.py:66 | Every no-break space becomes a plain space; every other character is kept in place. |
| Listings.PriceText | scraper.py:61-72 | With a price element it is that element's text with no-break spaces made plain. Without one it is the first fragment containing "$", made plain the same way, and so contains "$"; it is "Price Unknown" exactly when no fragment contains "$". |
| Listings.PriceTextAsRead | scraper.py:61-66 | A price element without a no-break space is saved exactly as it reads. |
| Listings.AddressWords | scraper.py:77-81 | After "hab" or "prop" the words are the parts between the first and the last (none when there is only one part); otherwise the words are all parts but the last. |
| Listings.SlugAddress | scraper.py:76-82 | The address contains no "/" and no "-". |
| Listings.SlugAddressOf | scraper.py:76-82 | A link whose last segment is an optional kind word, the address words and the listing number, joined by dashes, yields those words spaced and title-cased. |
| Listings.TrailingSlashEmpty | scraper.py:76-82 | A link ending in "/" yields the empty address. |
| Listings.PlaceholderSlug | scraper.py:76-84 | The slug `address-unknown-<number>` yields exactly "Address Unknown". |
| Listings.CardEntry | scraper.py:43-91 | A card yields a record exactly when it yields a link; that record is filed under an absolute for-sale link. |
| Harvest.Entries | scraper.py:40-57 | One entry per card, in document order, each fileable. |
| Harvest.ScanEntry | scraper.py:59-92 | The store grows by one exactly when the entry's link is not stored yet, and then by that record at the end. Nothing stored is removed or overwritten. Distinct and for-sale links are preserved. |
| Harvest.ScanEntries | scraper.py:38-96 | The card loop only extends the store. It counts exactly the records it adds, at most one per card, and keeps the links distinct and for-sale. |
| Harvest.ScanCards | scraper.py:38-96 | The same for the cards of one page. |
| Harvest.ScanEntryLinks | scraper.py:59-92 | One card extends the stored links by exactly the link it adds. |
| Harvest.ScanEntriesAppends | scraper.py:38-92 | The card loop appends to the store exactly the records of the page's new links: for each link stored neither before nor earlier on the page, the record of its first card, in order. The stored links grow by exactly those links, and `found_on_page` is their number. |
| Harvest.NoNewLinks | scraper.py:59 | Cards whose links are all stored already add no link. |
| Harvest.SeenPageStops | scraper.py:98-103 | A page whose for-sale links are all stored already ends the crawl there, with the store unchanged. |
| Harvest.CrawlFrom | scraper.py:24-113 | The crawl only extends the store and keeps its links distinct and for-sale. It stops within 20 pages. A stop at the limit happens at page 20. A stop on an error happens on a page whose fetch failed. The store grows by at least one listing for every page before the last. |
| Harvest.CrawlFromStops | scraper.py:100-113 | A crawl stops on the page it starts from exactly when that page failed, added nothing, or is page 20. It moves on only from a page that loaded and added something. A stop for lack of new listings follows a page that loaded. |
| Harvest.CrawlFromPages | scraper.py:24-113 | A crawl resumed on the store the earlier pages built is explained page by page against `StoreAfter`, the store the pages build when scanned in turn: every page before the last was productive, the last failed, added nothing, or is page 20, and the final store is what those pages built. |
| Harvest.Crawled | scraper.py:16-113 | The whole crawl requests between 1 and 20 pages and leaves distinct for-sale links. Every page before the last loaded and added a listing. The last page failed (stop on error), loaded but added nothing (no new listings), or is page 20 and added something (page limit). The store is what the requested pages built. |
| Harvest.KnownAddresses | scraper.py:123 | Only stored rows without the placeholder address are kept, every such row is kept, and distinct links stay distinct. |
| Harvest.KnownAddressesAppend | scraper.py:123 | The filter keeps the original order. |
| Harvest.SavedRows | scraper.py:116-129 | Nothing is written exactly when the store is empty. Otherwise the rows written are exactly the stored rows with a known address, with distinct links. |
| Crawler.HuntPage | scraper.py:24-113 | One pass of the page loop either moves on to the next page, at most 20, with the same remaining crawl, or clears `keep_hunting` with the crawl's end state. |
| Crawler.Requests | scraper.py:26-32 | One page address per page requested. |
| Crawler.RequestsAt | scraper.py:26-32 | The `i`-th request is for page `i + 1`. |
| Crawler.Hunt | scraper.py:16-113 | The `keep_hunting` loop ends in the same state as the functional crawl. It requests pages 1, 2, … in order, at least one and at most 20. |

## Left out

- HTTP fetching, request headers and HTML parsing (scraper.py:32-36, 43, 64, 69) are an oracle from a page address to the page's cards or a failure. A card is its first link's `href`, its price element's stripped text and its stripped text fragments.
- The politeness delay `time.sleep(random.uniform(...))` (scraper.py:106) has no effect on the logic.
- All `print` logging.
- Nominatim, the rate limiter and the timeout (geocoder.py:90-91) are replaced by the lookup oracle. The rate limiter's conversion of geocoder errors into "no result" is `NotFound`. Any other exception is `Raised`.
- Coordinates are an opaque type, not floating point.
- CSV reading and writing and the DataFrame plumbing (geocoder.py:66-69, 140-146; scraper.py:116-125). A table is headers plus rows of cells. A cell that is not a string (an empty cell reads as a number) is `None`. The output rows keep the input cells and add the three columns.
- The missing-input-file early return (geocoder.py:67-69) is I/O.
- `sys.exit()` when no address column exists (geocoder.py:83-85) is the result `Failure(NoAddressColumn)`.
- The per-card `except` (scraper.py:94-96) is left out: none of the modelled card rules can raise, and parser errors belong to the page oracle.
- The slug `except` (scraper.py:83-84) is left out because it cannot fire.
- The dictionary keyed by link is modelled as the list of its values in insertion order. Every value records its own key, and the saved table is built from the values.
- The page counter's last value (21 after the limit) is not kept. `Crawl.pages` is the number of pages requested.
- app.py (the dashboard) is not part of this model.
- Text.IsDigit: ASCII digits only. Python's `str.isdigit` also accepts other Unicode digits, which the model treats as non-digits.
- Text.Lower: ASCII letters only. Other cased letters are left as they are.
- Text.TitleCase: ASCII letters only. Other letters count as uncased.
- Geocoding.ColumnIndex: uses the first column when several normalised headers share the chosen name. In that case `df.at` falls back to `.loc` and hands `clean_address` a Series rather than a string, so the source rejects every row as junk, while the model geocodes the first matching column.
