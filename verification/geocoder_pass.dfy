/**
 * The geocoding pass as the source runs it: the row loop with its two
 * lookups per row, checked against the per-row rules of `Geocoding`.
 */
module GeocoderPass {
  import opened Wrappers
  import opened Text
  import opened Address
  import opened Geocoding

  /**
   * The lookup as the row loop performs it: a call that raises ends the
   * attempt without a location.
   */
  method LookUp<C>(clean: string, geocode: string -> Lookup<C>) returns (r: Option<Location<C>>)
    ensures r == Locate(clean, geocode)
  {
    var location := geocode(clean + CitySuffix);
    if location.NotFound? {
      location := geocode(clean);
    }
    r := if location.Found? then Some(location.location) else None;
  }

  /** One iteration of the row loop: clean the cell, look it up, record the three new columns. */
  method GeocodeOne<C>(cells: seq<Cell>, j: nat, geocode: string -> Lookup<C>) returns (g: GeoRow<C>)
    ensures g == GeocodeRow(cells, j, geocode)
  {
    var latitude: Option<C>, longitude: Option<C> := None, None;
    var clean := CleanAddress(CellAt(cells, j));
    if clean.Some? {
      var location := LookUp(clean.value, geocode);
      if location.Some? {
        latitude, longitude := Some(location.value.latitude), Some(location.value.longitude);
      }
    }
    g := GeoRow(cells, latitude, longitude, clean);
  }

  /** The row loop: each row yields exactly one annotated row, in order. */
  method GeocodeRows<C>(rows: seq<seq<Cell>>, j: nat, geocode: string -> Lookup<C>) returns (annotated: seq<GeoRow<C>>)
    ensures annotated == Annotate(rows, j, geocode)
  {
    annotated := [];
    var i := 0;
    while i < |rows|
      invariant 0 <= i <= |rows|
      invariant annotated == Annotate(rows[..i], j, geocode)
    {
      var g := GeocodeOne(rows[i], j, geocode);
      assert rows[..i + 1][..i] == rows[..i];
      annotated := annotated + [g];
      i := i + 1;
    }
    assert rows[..i] == rows;
  }

  /** The pass over a whole table: the rows written out, or the abort. */
  method RunGeocoder<C>(table: Table, geocode: string -> Lookup<C>) returns (r: Result<seq<GeoRow<C>>, PassError>)
    ensures r.Failure? <==> ChooseColumn(table.headers).None?
    ensures r.Success? ==> |r.value| <= |table.rows|
    ensures r.Success? ==> forall k :: 0 <= k < |r.value| ==> Located(r.value[k])
    ensures r.Success? ==>
      r.value == KeepLocated(Annotate(table.rows, ColumnIndex(NormalizeHeaders(table.headers), ChooseColumn(table.headers).value), geocode))
  {
    var column := ChooseColumn(table.headers);
    if column.None? {
      return Failure(NoAddressColumn);
    }
    var j := ColumnIndex(NormalizeHeaders(table.headers), column.value);
    var annotated := GeocodeRows(table.rows, j, geocode);
    r := Success(KeepLocated(annotated));
  }
}
