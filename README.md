# Cell neighbourhoods of a pogo `Location`, in Dafny

This project models `pogo/location.py` of the pokemongo-api client: the
`Location` record (a geocoded or blank position that can be overridden by
hand) and its two cell-enumeration algorithms over the s2sphere library:

- `getCells`, a linear walk along Hilbert-curve order from the level-15 cell
  of the position, `radius` steps each way (or `2 * radius` steps forward
  only), returned sorted;
- `get_neighbor_cell_list`, a square grid of cells shifted by whole cell
  edges in face (i, j) coordinates, emitted row by row without sorting or
  removing duplicates.

Files:

- `s2cells.dfy` (`S2Cells`): the s2sphere primitives the code calls, as
  fields of a `Library` value holding arbitrary total functions, so nothing
  is assumed about them; `NextIter`/`PrevIter` iterate `next()`/`prev()`.
- `sorting.dfy` (`Sorting`): Python's `sorted` on integers.
- `cellwalk.dfy` (`CellWalk`): the loop of `getCells` that collects ids
  before sorting, the list it builds and what that list contains.
- `neighbors.dfy` (`NeighborCells`): `get_neighbor_cell_list` as a method
  with its nested loops, and the grid it builds.
- `location.dfy` (`Locations`): the `Location` class, the geocoding outcome
  and the cell queries on a location.
- `wrappers.dfy` (`Wrappers`): `Option` for Python's `None`, `Result` for
  calls that raise.

Exceptions become `Result.Failure` values: the geo-request error
(`GeneralPogoException('Error in Geo Request')`), the `AttributeError` a
`None` geocoder answer causes, and the `TypeError` raised when a cell query
runs on a position that was never set.

Behaviour of the code that the model keeps:

- A one-sided walk returns `2 * radius + 1` ids: the origin plus `2 * radius`
  forward steps.
- A geocoder answer of `None` (no match) raises `AttributeError`:
  `geo.latitude` runs outside the `try`.
- A cell query on an unset position raises the `TypeError` of
  `LatLng.from_degrees`.
- `setLocation` on a blank location calls `geocode` on `None`; the bare
  `except` turns that into the geo-request error.
- The grid entry for offset (0, 0) is what `from_face_ij_same` returns for
  the cell's own face and (i, j); the code does not bring it back to the
  cell's level, so it is not promised to equal the input cell.

## Model

| member | source | states |
|---|---|---|
| `Sorting.Sorted` | pogo/location.py:95 | the result of `sorted(walk)` is ascending, has the same length and is a permutation (same multiset) of its input |
| `CellWalk.CollectWalk` | pogo/location.py:78-92 | the loop of `getCells` builds exactly the walk: the origin's id, then on each of the `radius` iterations (doubled for one way) the `right` cursor's id and, walking both ways, the `left` cursor's id; `2 * radius + 1` ids in all, 1 when `radius <= 0` |
| `CellWalk.WalkLength` | pogo/location.py:78-92 | the collected walk has `2 * radius + 1` ids in both modes, and only the origin when `radius <= 0` |
| `CellWalk.TwoSidedWalkAt` | pogo/location.py:78-92 | walking both ways, position 0 is the origin, position `2k - 1` is `next^k(origin)` and position `2k` is `prev^k(origin)`: right then left on each iteration |
| `CellWalk.OneSidedWalkAt` | pogo/location.py:79-89 | walking one way, position `k` is `next^k(origin)` for every `k` from 0 to `2 * radius` |
| `CellWalk.TwoSidedWalkMembers` | pogo/location.py:78-92 | an id is in the two-sided walk exactly when it is the origin's or that of `next^k` or `prev^k` of the origin for some `k` in 1..radius |
| `CellWalk.OneSidedWalkMembers` | pogo/location.py:79-89 | an id is in the one-sided walk exactly when it is the origin's or that of `next^k(origin)` for some `k` in 1..2*radius; `prev` results are never collected |
| `CellWalk.WalkDistinct` | pogo/location.py:78-95 | if `next()` always increases and `prev()` always decreases the id, the walk has no repeated id and the sorted result is strictly ascending |
| `NeighborCells.NeighborCellList` | pogo/location.py:108-122 | the nested loops return `(2r+1)^2` ids (none for `r < 0`); the id for offsets (`ii`, `jj`) sits at `(ii+r)*(2r+1) + (jj+r)` and is `from_face_ij_same` of the cell's own face, `i + ii*size`, `j + jj*size` and the in-range flag, with `size` from the cell's own level |
| `NeighborCells.GridLength` | pogo/location.py:113-115 | the grid has `(2r+1)^2` entries for `r >= 0` and is empty for `r < 0` |
| `NeighborCells.GridAt` | pogo/location.py:113-122 | row-major placement: `ii` outer, `jj` inner, both ascending; each entry's `same_face` flag is true exactly when both shifted coordinates lie in `[0, MAX_SIZE)` |
| `NeighborCells.GridCenter` | pogo/location.py:118-120 | the middle entry is `from_face_ij_same` of the cell's own face and (i, j), flagged by whether they are in range |
| `Locations.Resolve` | pogo/location.py:53-60 | a missing geocoder or a raising request gives the geo-request error; a `None` answer gives `AttributeError`; otherwise the answer's latitude and longitude, and its altitude unless that is `None` or 0, in which case 8; a returned altitude is never 0 |
| `Locations.Location.SetLocation` | pogo/location.py:53-60 | returns exactly the geocoding outcome `Resolve` describes for this location's geocoder and leaves the location unchanged |
| `Locations.Location.Create` | pogo/location.py:9-26 | with `noop` the blank location; otherwise a fresh, valid location holding the key, the geocoder chosen by the key's truthiness and the geocoded triple, or the geocoding error and no location |
| `Locations.Location.Noop` | pogo/location.py:11-18 | the blank location: `noop` set, key, geocoder, latitude, longitude and altitude all `None` |
| `Locations.Location.WithLocator` | pogo/location.py:20-24 | a keyed location uses `GoogleV3(api_key=geo_key)` when the key is truthy and the keyless client otherwise |
| `Locations.Location.SetCoordinates` | pogo/location.py:62-64 | only latitude and longitude change; `getCoordinates` then gives the new pair with the old altitude, and the location stays valid |
| `Locations.Location.GetCoordinates` | pogo/location.py:66-67 | the stored triple; for a valid non-blank location all three parts are present and the altitude is not 0 |
| `Locations.Location.GetCellId` | pogo/location.py:100-106 | the level-15 parent of the cell containing the position, or `TypeError` exactly when latitude or longitude is unset |
| `Locations.Location.GetCells` | pogo/location.py:69-95 | `TypeError` exactly when the position is unset; otherwise `sorted` of the walk, an ascending permutation of the walk from the level-15 origin, of length `2 * radius + 1` (1 when `radius <= 0`) |
| `Locations.Location.GetNeighborCells` | pogo/location.py:97-98 | `TypeError` exactly when the position is unset; otherwise the `(2r+1)^2` grid around the level-15 cell of the position, in row-major offset order |

## Left out

- `getDistance` (haversine distance over floats) is a call into gpxpy and is not modelled.
- `getLatLongIndex` is a one-line call into s2sphere and is not modelled.
- `__str__` only formats the coordinates as text and is not modelled.
- s2sphere itself (projection of a point to a cell, Hilbert `next`/`prev`, face/(i, j) conversion, face wrapping in `from_face_ij_same`, the value of `MAX_SIZE`) is foreign code; it is a parameter of arbitrary functions, so every result holds whatever the library does.
- The GoogleV3 client and its network request are a parameter `net` mapping a client and a query to an answer; retries, timeouts and the client's own behaviour are not modelled.
- Latitude, longitude and altitude are `real` rather than floating point; no arithmetic is done on them, and only the altitude's comparison with 0 (Python truthiness) matters.
- `CellWalk.WalkDistinct`: the walk is proved free of repeats only under the assumption that `next()` increases and `prev()` decreases the id, since the code relies on the library for that.
- A `Location` built with `noop=True` but a lookup string ignores the lookup, as the code does; the lookup is typed as a string, so a `None` lookup passed to a non-blank location is not modelled.
- `Locations.Location.SetCoordinates`: takes `real` latitude and longitude, so it cannot model passing `None`, which in the code unsets the position so that later cell queries raise `TypeError`; the invariant that a non-blank location has its position set relies on this typing.
