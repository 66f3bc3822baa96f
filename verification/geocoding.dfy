/**
 * The decision logic of the geocoding pass `run_geocoder`: pick the address
 * column, normalise each row's address, look it up with the city suffix and
 * retry without it on a miss, and keep only the rows that got coordinates.
 * The geocoding service is an abstract oracle from a query to a lookup
 * outcome; coordinates are values of an opaque type `C`.
 */
module Geocoding {
  import opened Wrappers
  import opened Text
  import opened Address

  /** Appended to every first lookup. */
  const CitySuffix := ", Montreal, QC"

  /** Candidate address columns, in priority order. */
  const AddressColumns: seq<string> := ["address", "location", "title", "addr"]

  /** A cell as the table reader delivers it: a string, or `None` for anything else (an empty cell, a number). */
  type Cell = Option<string>

  /** The listings table: header names and rows of cells. */
  datatype Table = Table(headers: seq<string>, rows: seq<seq<Cell>>)

  datatype Location<C> = Location(latitude: C, longitude: C)

  /** What one call of the rate-limited geocoder gives: a location, no match, or an exception. */
  datatype Lookup<C> = Found(location: Location<C>) | NotFound | Raised

  /** A row with the three columns the pass adds. */
  datatype GeoRow<C> = GeoRow(cells: seq<Cell>, latitude: Option<C>, longitude: Option<C>, cleanAddress: Option<string>)

  /** The pass aborts when no address column exists. */
  datatype PassError = NoAddressColumn

  /** A header as the pass sees it: trimmed and lower-cased. */
  function NormalizeHeader(h: string): string {
    Lower(Strip(h))
  }

  function NormalizeHeaders(headers: seq<string>): (r: seq<string>)
    ensures |r| == |headers|
    ensures forall i :: 0 <= i < |headers| ==> r[i] == NormalizeHeader(headers[i])
  {
    seq(|headers|, i requires 0 <= i < |headers| => NormalizeHeader(headers[i]))
  }

  /** Lower-casing never turns a non-space into a space or back. */
  lemma LowerKeepsSpaces(s: string)
    ensures forall i :: 0 <= i < |s| ==> (IsSpace(Lower(s)[i]) <==> IsSpace(s[i]))
  {
  }

  /** Normalising a header that is already normalised changes nothing. */
  lemma NormalizeHeaderIdempotent(h: string)
    ensures NormalizeHeader(NormalizeHeader(h)) == NormalizeHeader(h)
  {
    var t := Strip(h);
    var l := Lower(t);
    LowerKeepsSpaces(t);
    if |l| > 0 {
      StripTrimmed(l);
    } else {
      assert Strip(l) == l;
    }
    assert Lower(l) == l;
  }

  /** The index in `names` of the first name that occurs in `columns`. */
  function FirstPresent(names: seq<string>, columns: seq<string>): (r: Option<nat>)
    ensures r.None? <==> forall k :: 0 <= k < |names| ==> names[k] !in columns
    ensures r.Some? ==> r.value < |names| && names[r.value] in columns
    ensures r.Some? ==> forall k :: 0 <= k < r.value ==> names[k] !in columns
    decreases |names|
  {
    if |names| == 0 then None
    else if names[0] in columns then Some(0)
    else
      match FirstPresent(names[1..], columns)
      case None => None
      case Some(k) => Some(k + 1)
  }

  /** The address column: the first candidate present among the normalised headers. */
  function ChooseColumn(headers: seq<string>): (r: Option<string>)
    ensures r.None? <==> forall k :: 0 <= k < |AddressColumns| ==> AddressColumns[k] !in NormalizeHeaders(headers)
    ensures r.Some? ==> r.value in AddressColumns && r.value in NormalizeHeaders(headers)
    ensures r.Some? ==> forall k :: 0 <= k < |AddressColumns| && AddressColumns[k] == r.value ==>
      forall j :: 0 <= j < k ==> AddressColumns[j] !in NormalizeHeaders(headers)
  {
    match FirstPresent(AddressColumns, NormalizeHeaders(headers))
    case None => None
    case Some(k) => Some(AddressColumns[k])
  }

  /** The position of the first column called `name`. */
  function ColumnIndex(columns: seq<string>, name: string): (j: nat)
    requires name in columns
    ensures j < |columns| && columns[j] == name
    ensures forall i :: 0 <= i < j ==> columns[i] != name
  {
    if columns[0] == name then 0 else 1 + ColumnIndex(columns[1..], name)
  }

  /** The cell of a row in column `j`; a short row reads as missing. */
  function CellAt(cells: seq<Cell>, j: nat): Cell {
    if j < |cells| then cells[j] else None
  }

  /**
   * The lookup rule for a cleaned address: the suffixed query first, the
   * plain query only when the first one found nothing, and no location when
   * a call raised.
   */
  function Locate<C>(clean: string, geocode: string -> Lookup<C>): (r: Option<Location<C>>)
    ensures r.Some? <==>
      geocode(clean + CitySuffix).Found? || (geocode(clean + CitySuffix).NotFound? && geocode(clean).Found?)
    ensures geocode(clean + CitySuffix).Found? ==> r == Some(geocode(clean + CitySuffix).location)
    ensures geocode(clean + CitySuffix).NotFound? && geocode(clean).Found? ==> r == Some(geocode(clean).location)
  {
    match geocode(clean + CitySuffix)
    case Found(loc) => Some(loc)
    case Raised => None
    case NotFound =>
      match geocode(clean)
      case Found(loc) => Some(loc)
      case _ => None
  }

  /** What the pass records for one row whose address sits in column `j`. */
  function GeocodeRow<C>(cells: seq<Cell>, j: nat, geocode: string -> Lookup<C>): (g: GeoRow<C>)
    ensures g.cells == cells
    ensures g.cleanAddress == CleanAddress(CellAt(cells, j))
    ensures g.latitude.Some? <==> g.longitude.Some?
    ensures g.latitude.Some? <==> g.cleanAddress.Some? && Locate(g.cleanAddress.value, geocode).Some?
    ensures g.latitude.Some? ==>
      g.latitude.value == Locate(g.cleanAddress.value, geocode).value.latitude &&
      g.longitude.value == Locate(g.cleanAddress.value, geocode).value.longitude
  {
    match CleanAddress(CellAt(cells, j))
    case None => GeoRow(cells, None, None, None)
    case Some(clean) =>
      match Locate(clean, geocode)
      case Some(loc) => GeoRow(cells, Some(loc.latitude), Some(loc.longitude), Some(clean))
      case None => GeoRow(cells, None, None, Some(clean))
  }

  /** A row that survives the final filter. */
  predicate Located<C>(g: GeoRow<C>) {
    g.latitude.Some? && g.longitude.Some?
  }

  /** A row is kept exactly when its address cleans and one of the two lookups finds it. */
  lemma KeptIff<C>(cells: seq<Cell>, j: nat, geocode: string -> Lookup<C>)
    ensures Located(GeocodeRow(cells, j, geocode)) <==>
      var clean := CleanAddress(CellAt(cells, j));
      clean.Some? &&
      (geocode(clean.value + CitySuffix).Found? ||
       (geocode(clean.value + CitySuffix).NotFound? && geocode(clean.value).Found?))
  {
  }

  /** A row whose address does not clean is never looked up and never kept. */
  lemma JunkNeverKept<C>(cells: seq<Cell>, j: nat, geocode: string -> Lookup<C>)
    requires CleanAddress(CellAt(cells, j)).None?
    ensures GeocodeRow(cells, j, geocode) == GeoRow(cells, None, None, None)
  {
  }

  /** `dropna(subset=['latitude', 'longitude'])`: keep the located rows, in order. */
  function KeepLocated<C>(rows: seq<GeoRow<C>>): (r: seq<GeoRow<C>>)
    ensures |r| <= |rows|
    ensures forall k :: 0 <= k < |r| ==> Located(r[k]) && r[k] in rows
    ensures forall i :: 0 <= i < |rows| && Located(rows[i]) ==> rows[i] in r
  {
    if |rows| == 0 then []
    else if Located(rows[0]) then [rows[0]] + KeepLocated(rows[1..])
    else KeepLocated(rows[1..])
  }

  /** The filter keeps the original order: filtering a concatenation concatenates the filtered parts. */
  lemma {:induction false} KeepLocatedAppend<C>(a: seq<GeoRow<C>>, b: seq<GeoRow<C>>)
    ensures KeepLocated(a + b) == KeepLocated(a) + KeepLocated(b)
  {
    if |a| > 0 {
      assert (a + b)[0] == a[0];
      assert (a + b)[1..] == a[1..] + b;
      KeepLocatedAppend(a[1..], b);
    } else {
      assert a + b == b;
    }
  }

  /** The table after the row loop: every row with its three new columns, in the original order. */
  function Annotate<C>(rows: seq<seq<Cell>>, j: nat, geocode: string -> Lookup<C>): (r: seq<GeoRow<C>>)
    ensures |r| == |rows|
    decreases |rows|
  {
    if |rows| == 0 then []
    else Annotate(rows[..|rows| - 1], j, geocode) + [GeocodeRow(rows[|rows| - 1], j, geocode)]
  }

  /** Row `k` of the annotated table is row `k` of the input with its own lookup. */
  lemma {:induction false} AnnotateAt<C>(rows: seq<seq<Cell>>, j: nat, geocode: string -> Lookup<C>, k: nat)
    requires k < |rows|
    ensures Annotate(rows, j, geocode)[k] == GeocodeRow(rows[k], j, geocode)
    decreases |rows|
  {
    if k < |rows| - 1 {
      var init := rows[..|rows| - 1];
      AnnotateAt(init, j, geocode, k);
      assert init[k] == rows[k];
    }
  }

  /**
   * The rows the pass writes out are exactly the input rows whose address
   * cleans and is found, each carrying a cleaned, digit-led address.
   */
  lemma KeptExactly<C>(rows: seq<seq<Cell>>, j: nat, geocode: string -> Lookup<C>)
    ensures forall g :: g in KeepLocated(Annotate(rows, j, geocode)) ==>
      Located(g) && g.cleanAddress.Some? && |g.cleanAddress.value| > 0 && IsDigit(g.cleanAddress.value[0])
      && exists i :: 0 <= i < |rows| && g == GeocodeRow(rows[i], j, geocode)
    ensures forall i :: 0 <= i < |rows| && Located(GeocodeRow(rows[i], j, geocode)) ==>
      GeocodeRow(rows[i], j, geocode) in KeepLocated(Annotate(rows, j, geocode))
  {
    var annotated := Annotate(rows, j, geocode);
    forall i | 0 <= i < |rows| ensures annotated[i] == GeocodeRow(rows[i], j, geocode) {
      AnnotateAt(rows, j, geocode, i);
    }
    forall g | g in KeepLocated(annotated)
      ensures Located(g) && g.cleanAddress.Some? && |g.cleanAddress.value| > 0 && IsDigit(g.cleanAddress.value[0])
      ensures exists i :: 0 <= i < |rows| && g == GeocodeRow(rows[i], j, geocode)
    {
      var i :| 0 <= i < |annotated| && annotated[i] == g;
      assert g == GeocodeRow(rows[i], j, geocode);
    }
  }
}
