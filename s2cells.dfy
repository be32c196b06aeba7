/**
 * The slice of the s2sphere cell library that the location code calls.
 * The library is foreign code: each primitive is a field of `Library` holding a
 * total function, so the model assumes nothing about how cells are projected,
 * ordered along the Hilbert curve, or wrapped across cube faces.
 */
module S2Cells {

  /** An s2sphere `CellId`; `id` is what `CellId.id()` returns. */
  datatype CellId = CellId(id: int)

  /** The tuple returned by `CellId.to_face_ij_orientation()`. */
  datatype FaceIJ = FaceIJ(face: int, i: int, j: int, orientation: int)

  datatype Library = Library(
    /** `CellId.from_lat_lng(LatLng.from_degrees(lat, lon))`: the leaf cell of a point */
    fromLatLng: (real, real) -> CellId,
    /** `c.parent(level)` */
    parent: (CellId, int) -> CellId,
    /** `c.next()`: the following cell at the same level in Hilbert-curve order */
    next: CellId -> CellId,
    /** `c.prev()`: the preceding cell at the same level in Hilbert-curve order */
    prev: CellId -> CellId,
    /** `c.level()` */
    level: CellId -> int,
    /** `CellId.get_size_ij(level)`: the edge length, in leaf (i, j) units, of a cell at `level` */
    sizeIJ: int -> int,
    /** `c.to_face_ij_orientation()` */
    toFaceIJOrientation: CellId -> FaceIJ,
    /** `CellId.from_face_ij_same(face, i, j, same_face)`; wraps onto a neighbouring face when `same_face` is false */
    fromFaceIJSame: (int, int, int, bool) -> CellId,
    /** `CellId.MAX_SIZE`: the extent of the (i, j) grid on one face */
    maxSize: int)

  /** `c.next()` applied `k` times. */
  function NextIter(lib: Library, c: CellId, k: nat): CellId
  {
    if k == 0 then c else lib.next(NextIter(lib, c, k - 1))
  }

  /** `c.prev()` applied `k` times. */
  function PrevIter(lib: Library, c: CellId, k: nat): CellId
  {
    if k == 0 then c else lib.prev(PrevIter(lib, c, k - 1))
  }
}
