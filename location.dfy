/**
 * The `Location` record of pogo/location.py: a geocoded (or blank) position and
 * the cell neighbourhoods computed around it.
 */
module Locations {
  import opened Wrappers
  import opened S2Cells
  import opened Sorting
  import opened CellWalk
  import opened NeighborCells

  /** The level at which `getCells` and `getCellId` take the cell containing the point. */
  const CellLevel: int := 15

  /** Altitude used when the geocoder gives none or a zero one (`geo.altitude or 8`). */
  const DefaultAltitude: real := 8.0

  /** A geopy `GoogleV3` client; `apiKey` is `None` for the keyless client. */
  datatype Geocoder = GoogleV3(apiKey: Option<string>)

  /** The fields of a geopy answer that `setLocation` reads. */
  datatype GeoPoint = GeoPoint(latitude: real, longitude: real, altitude: Option<real>)

  /** What `locator.geocode(search)` does: raise, or return a point or `None` (no match). */
  datatype Answer = Raises | Returns(point: Option<GeoPoint>)

  /** The geocoding service behind the network request. */
  type Network = (Geocoder, string) -> Answer

  /** Exceptions the location code raises or lets escape. */
  datatype PogoError =
    | GeneralPogoException(message: string)
    /** `geo.latitude` on the `None` that geocode returns for no match */
    | AttributeError
    /** `LatLng.from_degrees(None, None)` on an unset position */
    | TypeError

  const GeoRequestError: PogoError := GeneralPogoException("Error in Geo Request")

  /** The triple `setLocation` returns. */
  datatype Triple = Triple(latitude: real, longitude: real, altitude: real)

  /** The triple `getCoordinates` returns; any part may still be `None`. */
  datatype Coordinates = Coordinates(latitude: Option<real>, longitude: Option<real>, altitude: Option<real>)

  /** `GoogleV3(api_key=geo_key)` when `geo_key` is truthy, otherwise `GoogleV3()`. */
  function LocatorFor(geoKey: Option<string>): Geocoder
  {
    if geoKey.Some? && geoKey.value != "" then GoogleV3(geoKey) else GoogleV3(None)
  }

  /**
   * The outcome of `setLocation(search)` for a location whose `locator` is `locator`.
   * A missing locator (`None.geocode`) and any exception of the request are both
   * caught and re-raised as the geo-request error; a `None` answer escapes the
   * `try` and fails on `geo.latitude`.
   */
  function Resolve(locator: Option<Geocoder>, search: string, net: Network): (r: Result<Triple, PogoError>)
    ensures locator.None? ==> r == Failure(GeoRequestError)
    ensures locator.Some? && net(locator.value, search).Raises? ==> r == Failure(GeoRequestError)
    ensures locator.Some? && net(locator.value, search) == Returns(None) ==> r == Failure(AttributeError)
    ensures locator.Some? && net(locator.value, search).Returns? && net(locator.value, search).point.Some? ==>
      var geo := net(locator.value, search).point.value;
      && r.Success?
      && r.value.latitude == geo.latitude
      && r.value.longitude == geo.longitude
      && (geo.altitude.Some? && geo.altitude.value != 0.0 ==> r.value.altitude == geo.altitude.value)
      && (geo.altitude.None? || geo.altitude == Some(0.0) ==> r.value.altitude == DefaultAltitude)
    ensures r.Success? ==> r.value.altitude != 0.0
  {
    if locator.None? then
      Failure(GeoRequestError)
    else
      match net(locator.value, search)
      case Raises => Failure(GeoRequestError)
      case Returns(None) => Failure(AttributeError)
      case Returns(Some(geo)) =>
        var alt := if geo.altitude.None? || geo.altitude.value == 0.0 then DefaultAltitude else geo.altitude.value;
        Success(Triple(geo.latitude, geo.longitude, alt))
  }

  /** The cell at `CellLevel` containing the point (`from_lat_lng(...).parent(15)`). */
  function Origin(lib: Library, latitude: real, longitude: real): CellId
  {
    lib.parent(lib.fromLatLng(latitude, longitude), CellLevel)
  }

  class Location {
    var noop: bool
    var geoKey: Option<string>
    var locator: Option<Geocoder>
    var latitude: Option<real>
    var longitude: Option<real>
    var altitude: Option<real>

    /**
     * A blank location has neither key nor geocoder; a resolved one has a
     * geocoder built from its key and a full position whose altitude is not 0.
     */
    ghost predicate Valid()
      reads this
    {
      && (noop ==> geoKey.None? && locator.None?)
      && (!noop ==> locator == Some(LocatorFor(geoKey)))
      && (!noop ==> latitude.Some? && longitude.Some? && altitude.Some? && altitude.value != 0.0)
    }

    /** `Location.Noop()`: the blank placeholder. */
    constructor Noop()
      ensures noop
      ensures geoKey.None? && locator.None?
      ensures latitude.None? && longitude.None? && altitude.None?
      ensures Valid()
    {
      noop := true;
      geoKey := None;
      locator := None;
      latitude := None;
      longitude := None;
      altitude := None;
    }

    /** The part of `__init__` that runs before the geocoding request. */
    constructor WithLocator(geoKey: Option<string>)
      ensures !noop
      ensures this.geoKey == geoKey && locator == Some(LocatorFor(geoKey))
      ensures latitude.None? && longitude.None? && altitude.None?
    {
      noop := false;
      this.geoKey := geoKey;
      locator := Some(LocatorFor(geoKey));
      latitude := None;
      longitude := None;
      altitude := None;
    }

    /**
     * `Location(locationLookup, geo_key, noop)`: either the blank placeholder, or a
     * location geocoded from `locationLookup`; a failed lookup escapes the
     * constructor, so no location is produced.
     */
    static method Create(locationLookup: string, geoKey: Option<string>, net: Network, noop: bool := false)
      returns (r: Result<Location, PogoError>)
      ensures r.Success? ==> fresh(r.value) && r.value.Valid()
      ensures noop ==>
        && r.Success?
        && r.value.noop && r.value.geoKey.None? && r.value.locator.None?
        && r.value.latitude.None? && r.value.longitude.None? && r.value.altitude.None?
      ensures !noop ==>
        var g := Resolve(Some(LocatorFor(geoKey)), locationLookup, net);
        && (r.Failure? <==> g.Failure?)
        && (r.Failure? ==> r.error == g.error)
        && (r.Success? ==>
          && !r.value.noop
          && r.value.geoKey == geoKey
          && r.value.locator == Some(LocatorFor(geoKey))
          && r.value.latitude == Some(g.value.latitude)
          && r.value.longitude == Some(g.value.longitude)
          && r.value.altitude == Some(g.value.altitude))
    {
      if noop {
        var blank := new Location.Noop();
        return Success(blank);
      }
      var loc := new Location.WithLocator(geoKey);
      var g := loc.SetLocation(locationLookup, net);
      if g.Failure? {
        return Failure(g.error);
      }
      loc.latitude, loc.longitude, loc.altitude := Some(g.value.latitude), Some(g.value.longitude), Some(g.value.altitude);
      return Success(loc);
    }

    /** `setLocation(search)`: geocodes `search` with this location's geocoder; the fields are left alone. */
    method SetLocation(search: string, net: Network) returns (r: Result<Triple, PogoError>)
      ensures r == Resolve(locator, search, net)
    {
      r := Resolve(locator, search, net);
    }

    /** `setCoordinates(latitude, longitude)`: overrides the position, keeping altitude and all else. */
    method SetCoordinates(latitude: real, longitude: real)
      modifies this`latitude, this`longitude
      ensures this.latitude == Some(latitude) && this.longitude == Some(longitude)
      ensures GetCoordinates() == Coordinates(Some(latitude), Some(longitude), old(altitude))
      ensures old(Valid()) ==> Valid()
    {
      this.latitude := Some(latitude);
      this.longitude := Some(longitude);
    }

    /** `getCoordinates()`. */
    function GetCoordinates(): (c: Coordinates)
      reads this
      ensures c.latitude == latitude && c.longitude == longitude && c.altitude == altitude
      ensures Valid() && !noop ==> c.latitude.Some? && c.longitude.Some? && c.altitude.Some? && c.altitude.value != 0.0
    {
      Coordinates(latitude, longitude, altitude)
    }

    /** `getCellId()`: the level-15 parent of the cell containing the position. */
    method GetCellId(lib: Library) returns (r: Result<CellId, PogoError>)
      ensures r.Failure? <==> latitude.None? || longitude.None?
      ensures r.Failure? ==> r.error == TypeError
      ensures r.Success? ==> r.value == Origin(lib, latitude.value, longitude.value)
    {
      if latitude.None? || longitude.None? {
        return Failure(TypeError);
      }
      return Success(Origin(lib, latitude.value, longitude.value));
    }

    /**
     * `getCells(radius, bothDirections)`: the sorted ids met walking `radius` steps
     * each way from the level-15 origin along Hilbert order, or `2 * radius`
     * steps forward only.
     */
    method GetCells(lib: Library, radius: int := 10, bothDirections: bool := true) returns (r: Result<seq<int>, PogoError>)
      ensures r.Failure? <==> latitude.None? || longitude.None?
      ensures r.Failure? ==> r.error == TypeError
      ensures r.Success? ==>
        var walk := Walk(lib, Origin(lib, latitude.value, longitude.value), radius, bothDirections);
        && r.value == Sorted(walk)
        && SortedAsc(r.value)
        && multiset(r.value) == multiset(walk)
        && |r.value| == (if radius <= 0 then 1 else 2 * radius + 1)
    {
      if latitude.None? || longitude.None? {
        return Failure(TypeError);
      }
      var origin := Origin(lib, latitude.value, longitude.value);
      var walk := CollectWalk(lib, origin, radius, bothDirections);
      return Success(Sorted(walk));
    }

    /** `getNeighborCells(radius)`: the grid around the level-15 cell of the position. */
    method GetNeighborCells(lib: Library, radius: int := 1) returns (r: Result<seq<int>, PogoError>)
      ensures r.Failure? <==> latitude.None? || longitude.None?
      ensures r.Failure? ==> r.error == TypeError
      ensures r.Success? ==>
        var cell := Origin(lib, latitude.value, longitude.value);
        && |r.value| == Side(radius) * Side(radius)
        && forall ii, jj :: -radius <= ii <= radius && -radius <= jj <= radius ==>
          && 0 <= GridIndex(radius, ii, jj) < |r.value|
          && r.value[GridIndex(radius, ii, jj)] == Entry(lib, cell, ii, jj)
    {
      var cell := GetCellId(lib);
      if cell.Failure? {
        return Failure(cell.error);
      }
      var ret := NeighborCellList(lib, cell.value, radius);
      return Success(ret);
    }
  }
}
