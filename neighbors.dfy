/**
 * `get_neighbor_cell_list(cell_id, radius)`: the square of cells whose (i, j)
 * offsets from `cell_id` are multiples of the cell's own edge length, from
 * `-radius` to `radius` on each axis.
 */
module NeighborCells {
  import opened S2Cells

  /** The number of offsets on one axis, `len(range(-radius, radius + 1))`. */
  function Side(radius: int): nat
  {
    if radius < 0 then 0 else 2 * radius + 1
  }

  /** The id emitted for the offset pair (`ii`, `jj`): same face, coordinates shifted by whole cells, wrap flag. */
  function Entry(lib: Library, cell: CellId, ii: int, jj: int): int
  {
    var f := lib.toFaceIJOrientation(cell);
    var size := lib.sizeIJ(lib.level(cell));
    var newI := f.i + ii * size;
    var newJ := f.j + jj * size;
    var sameFace := 0 <= newI < lib.maxSize && 0 <= newJ < lib.maxSize;
    lib.fromFaceIJSame(f.face, newI, newJ, sameFace).id
  }

  /** The ids emitted by one pass of the inner loop, for the row offset `ii`. */
  function Row(lib: Library, cell: CellId, radius: int, ii: int): seq<int>
  {
    seq(Side(radius), k => Entry(lib, cell, ii, k - radius))
  }

  /** The ids emitted by the first `n` passes of the outer loop. */
  function Rows(lib: Library, cell: CellId, radius: int, n: nat): seq<int>
  {
    if n == 0 then [] else Rows(lib, cell, radius, n - 1) + Row(lib, cell, radius, n - 1 - radius)
  }

  /** The list returned by `get_neighbor_cell_list(cell, radius)`. */
  function Grid(lib: Library, cell: CellId, radius: int): seq<int>
  {
    Rows(lib, cell, radius, Side(radius))
  }

  /** Where the offset pair (`ii`, `jj`) lands in row-major order. */
  function GridIndex(radius: int, ii: int, jj: int): int
  {
    (ii + radius) * (2 * radius + 1) + (jj + radius)
  }

  lemma {:induction false} RowsAt(lib: Library, cell: CellId, radius: int, n: nat, m: nat, k: nat)
    requires radius >= 0
    requires m < n && k < Side(radius)
    ensures |Rows(lib, cell, radius, n)| == n * Side(radius)
    ensures m * Side(radius) + k < n * Side(radius)
    ensures Rows(lib, cell, radius, n)[m * Side(radius) + k] == Entry(lib, cell, m - radius, k - radius)
  {
    var side := Side(radius);
    RowsLength(lib, cell, radius, n - 1);
    assert (n - 1) * side + side == n * side;
    if m < n - 1 {
      RowsAt(lib, cell, radius, n - 1, m, k);
    } else {
      assert m * side + k - (n - 1) * side == k;
    }
  }

  lemma {:induction false} RowsLength(lib: Library, cell: CellId, radius: int, n: nat)
    ensures |Rows(lib, cell, radius, n)| == n * Side(radius)
  {
    if n > 0 {
      RowsLength(lib, cell, radius, n - 1);
      assert (n - 1) * Side(radius) + Side(radius) == n * Side(radius);
    }
  }

  /**
   * The grid has `(2 * radius + 1)^2` entries (none for a negative radius), and the
   * offset pair (`ii`, `jj`) sits at `(ii + radius) * (2 * radius + 1) + (jj + radius)`:
   * `ii` is the outer loop, `jj` the inner one, both ascending.
   */
  lemma GridAt(lib: Library, cell: CellId, radius: int, ii: int, jj: int)
    requires -radius <= ii <= radius && -radius <= jj <= radius
    ensures |Grid(lib, cell, radius)| == (2 * radius + 1) * (2 * radius + 1)
    ensures 0 <= GridIndex(radius, ii, jj) < |Grid(lib, cell, radius)|
    ensures Grid(lib, cell, radius)[GridIndex(radius, ii, jj)] == Entry(lib, cell, ii, jj)
  {
    var side := Side(radius);
    assert side == 2 * radius + 1;
    assert GridIndex(radius, ii, jj) == (ii + radius) * side + (jj + radius);
    RowsAt(lib, cell, radius, side, ii + radius, jj + radius);
  }

  lemma GridLength(lib: Library, cell: CellId, radius: int)
    ensures |Grid(lib, cell, radius)| == Side(radius) * Side(radius)
    ensures radius < 0 ==> Grid(lib, cell, radius) == []
  {
    RowsLength(lib, cell, radius, Side(radius));
  }

  /**
   * The entry for offset (0, 0), in the middle of the list, is whatever
   * `from_face_ij_same` yields for the cell's own face and (i, j); the list does
   * not re-parent it to the cell's level, so it need not equal the cell itself.
   */
  lemma GridCenter(lib: Library, cell: CellId, radius: int)
    requires radius >= 0
    ensures |Grid(lib, cell, radius)| == (2 * radius + 1) * (2 * radius + 1)
    ensures
      var f := lib.toFaceIJOrientation(cell);
      Grid(lib, cell, radius)[2 * radius * (radius + 1)]
        == lib.fromFaceIJSame(f.face, f.i, f.j, 0 <= f.i < lib.maxSize && 0 <= f.j < lib.maxSize).id
  {
    GridAt(lib, cell, radius, 0, 0);
  }

  /** The nested loops of `get_neighbor_cell_list`. */
  method NeighborCellList(lib: Library, cell: CellId, radius: int) returns (ret: seq<int>)
    ensures ret == Grid(lib, cell, radius)
    ensures |ret| == Side(radius) * Side(radius)
    ensures forall ii, jj :: -radius <= ii <= radius && -radius <= jj <= radius ==>
      && 0 <= GridIndex(radius, ii, jj) < |ret|
      && ret[GridIndex(radius, ii, jj)] == Entry(lib, cell, ii, jj)
  {
    var level := lib.level(cell);
    var size := lib.sizeIJ(level);
    var f := lib.toFaceIJOrientation(cell);
    var face, i, j := f.face, f.i, f.j;

    ret := [];
    var ii := -radius;
    while ii < radius + 1
      invariant radius < 0 ==> ii == -radius && ret == []
      invariant radius >= 0 ==> -radius <= ii <= radius + 1 && ret == Rows(lib, cell, radius, ii + radius)
    {
      var jj := -radius;
      while jj < radius + 1
        invariant -radius <= jj <= radius + 1
        invariant ret == Rows(lib, cell, radius, ii + radius) + Row(lib, cell, radius, ii)[..jj + radius]
      {
        var newI := i + ii * size;
        var newJ := j + jj * size;
        var sameFace := newI >= 0 && newI < lib.maxSize && newJ >= 0 && newJ < lib.maxSize;
        ret := ret + [lib.fromFaceIJSame(face, newI, newJ, sameFace).id];
        assert Row(lib, cell, radius, ii)[..jj + radius + 1]
          == Row(lib, cell, radius, ii)[..jj + radius] + [Entry(lib, cell, ii, jj)];
        jj := jj + 1;
      }
      assert Row(lib, cell, radius, ii)[..jj + radius] == Row(lib, cell, radius, ii);
      ii := ii + 1;
    }
    GridLength(lib, cell, radius);
    forall ii, jj | -radius <= ii <= radius && -radius <= jj <= radius
      ensures 0 <= GridIndex(radius, ii, jj) < |ret| && ret[GridIndex(radius, ii, jj)] == Entry(lib, cell, ii, jj)
    {
      GridAt(lib, cell, radius, ii, jj);
    }
  }
}
