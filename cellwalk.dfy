/**
 * What `Location.getCells` collects before sorting: the origin cell's id, then,
 * on each loop iteration, the id under the `right` cursor (advanced by `next()`)
 * and, when walking both ways, the id under the `left` cursor (moved by `prev()`).
 */
module CellWalk {
  import opened S2Cells
  import opened Sorting

  /** The ids appended by the `k`-th iteration (counted from 1) of the walk loop. */
  function StepIds(lib: Library, origin: CellId, k: nat, bothDirections: bool): seq<int>
  {
    if bothDirections then
      [NextIter(lib, origin, k).id, PrevIter(lib, origin, k).id]
    else
      [NextIter(lib, origin, k).id]
  }

  /** The ids appended by the first `n` iterations, in append order. */
  function Steps(lib: Library, origin: CellId, n: nat, bothDirections: bool): seq<int>
  {
    if n == 0 then [] else Steps(lib, origin, n - 1, bothDirections) + StepIds(lib, origin, n, bothDirections)
  }

  /** How often `for _ in range(radius)` runs once a one-sided walk has doubled `radius`. */
  function Iterations(radius: int, bothDirections: bool): nat
  {
    var n := if bothDirections then radius else 2 * radius;
    if n < 0 then 0 else n
  }

  /** The unsorted list `walk` at the end of `getCells`. */
  function Walk(lib: Library, origin: CellId, radius: int, bothDirections: bool): seq<int>
  {
    [origin.id] + Steps(lib, origin, Iterations(radius, bothDirections), bothDirections)
  }

  /**
   * The loop of `getCells`: seed the list with the origin, then append from the
   * `right` cursor (and, walking both ways, from the `left` cursor) `radius`
   * times, `radius` having been doubled for a one-sided walk.
   */
  method CollectWalk(lib: Library, origin: CellId, radius: int, bothDirections: bool) returns (walk: seq<int>)
    ensures walk == Walk(lib, origin, radius, bothDirections)
    ensures |walk| == if radius <= 0 then 1 else 2 * radius + 1
  {
    walk := [origin.id];
    var right := lib.next(origin);
    var left := lib.prev(origin);

    var n := radius;
    if !bothDirections {
      n := n * 2;
    }

    var i := 0;
    while i < n
      invariant 0 <= i <= (if n < 0 then 0 else n)
      invariant walk == [origin.id] + Steps(lib, origin, i, bothDirections)
      invariant right == NextIter(lib, origin, i + 1)
      invariant left == PrevIter(lib, origin, if bothDirections then i + 1 else 1)
    {
      walk := walk + [right.id];
      right := lib.next(right);
      if bothDirections {
        walk := walk + [left.id];
        left := lib.prev(left);
      }
      i := i + 1;
    }
    assert i == Iterations(radius, bothDirections);
    WalkLength(lib, origin, radius, bothDirections);
  }

  lemma {:induction false} StepsLength(lib: Library, origin: CellId, n: nat, bothDirections: bool)
    ensures |Steps(lib, origin, n, bothDirections)| == if bothDirections then 2 * n else n
  {
    if n > 0 {
      StepsLength(lib, origin, n - 1, bothDirections);
    }
  }

  /** Both modes collect `2 * radius + 1` ids; a radius of zero or below collects the origin alone. */
  lemma WalkLength(lib: Library, origin: CellId, radius: int, bothDirections: bool)
    ensures |Walk(lib, origin, radius, bothDirections)| == if radius <= 0 then 1 else 2 * radius + 1
  {
    StepsLength(lib, origin, Iterations(radius, bothDirections), bothDirections);
  }

  lemma {:induction false} StepsAt(lib: Library, origin: CellId, n: nat, bothDirections: bool, k: nat)
    requires 1 <= k <= n
    ensures bothDirections ==> (
      && |Steps(lib, origin, n, true)| == 2 * n
      && Steps(lib, origin, n, true)[2 * k - 2] == NextIter(lib, origin, k).id
      && Steps(lib, origin, n, true)[2 * k - 1] == PrevIter(lib, origin, k).id)
    ensures !bothDirections ==> (
      && |Steps(lib, origin, n, false)| == n
      && Steps(lib, origin, n, false)[k - 1] == NextIter(lib, origin, k).id)
  {
    StepsLength(lib, origin, n, true);
    StepsLength(lib, origin, n, false);
    if k < n {
      StepsAt(lib, origin, n - 1, bothDirections, k);
      StepsLength(lib, origin, n - 1, true);
      StepsLength(lib, origin, n - 1, false);
    } else {
      StepsLength(lib, origin, n - 1, true);
      StepsLength(lib, origin, n - 1, false);
    }
  }

  /**
   * Walking both ways, iteration `k` appends `next^k(origin)` and then `prev^k(origin)`,
   * right after the origin and the `k - 1` earlier pairs.
   */
  lemma TwoSidedWalkAt(lib: Library, origin: CellId, radius: int, k: nat)
    requires 1 <= k <= radius
    ensures |Walk(lib, origin, radius, true)| == 2 * radius + 1
    ensures Walk(lib, origin, radius, true)[0] == origin.id
    ensures Walk(lib, origin, radius, true)[2 * k - 1] == NextIter(lib, origin, k).id
    ensures Walk(lib, origin, radius, true)[2 * k] == PrevIter(lib, origin, k).id
  {
    StepsAt(lib, origin, radius, true, k);
  }

  /** Walking one way, position `k` holds `next^k(origin)` for every `k` from 0 to `2 * radius`. */
  lemma OneSidedWalkAt(lib: Library, origin: CellId, radius: int, k: nat)
    requires k <= 2 * radius
    ensures |Walk(lib, origin, radius, false)| == 2 * radius + 1
    ensures Walk(lib, origin, radius, false)[k] == NextIter(lib, origin, k).id
  {
    StepsLength(lib, origin, 2 * radius, false);
    if k > 0 {
      StepsAt(lib, origin, 2 * radius, false, k);
    }
  }

  /** The two-sided walk holds the origin and `next^k`, `prev^k` of it for `k` in 1..radius, and nothing else. */
  lemma TwoSidedWalkMembers(lib: Library, origin: CellId, radius: int, x: int)
    ensures x in Walk(lib, origin, radius, true) <==>
      x == origin.id
      || exists k :: 1 <= k <= radius && (x == NextIter(lib, origin, k).id || x == PrevIter(lib, origin, k).id)
  {
    var w := Walk(lib, origin, radius, true);
    WalkLength(lib, origin, radius, true);
    if x in w {
      var p :| 0 <= p < |w| && w[p] == x;
      if p > 0 {
        var k := (p + 1) / 2;
        TwoSidedWalkAt(lib, origin, radius, k);
      }
    }
    if exists k :: 1 <= k <= radius && (x == NextIter(lib, origin, k).id || x == PrevIter(lib, origin, k).id) {
      var k :| 1 <= k <= radius && (x == NextIter(lib, origin, k).id || x == PrevIter(lib, origin, k).id);
      TwoSidedWalkAt(lib, origin, radius, k);
    }
  }

  /** The one-sided walk holds exactly `next^k(origin)` for `k` in 0..2*radius: no `prev` result is collected. */
  lemma OneSidedWalkMembers(lib: Library, origin: CellId, radius: int, x: int)
    ensures x in Walk(lib, origin, radius, false) <==>
      x == origin.id || exists k :: 1 <= k <= 2 * radius && x == NextIter(lib, origin, k).id
  {
    var w := Walk(lib, origin, radius, false);
    WalkLength(lib, origin, radius, false);
    if x in w {
      var p :| 0 <= p < |w| && w[p] == x;
      if p > 0 {
        OneSidedWalkAt(lib, origin, radius, p);
      }
    }
    if exists k :: 1 <= k <= 2 * radius && x == NextIter(lib, origin, k).id {
      var k :| 1 <= k <= 2 * radius && x == NextIter(lib, origin, k).id;
      OneSidedWalkAt(lib, origin, radius, k);
    }
  }

  /** The library's `next()` always moves to a larger id and `prev()` to a smaller one (no wrap-around). */
  ghost predicate MonotoneCursors(lib: Library)
  {
    && (forall c :: lib.next(c).id > c.id)
    && (forall c :: lib.prev(c).id < c.id)
  }

  lemma {:induction false} IterMonotone(lib: Library, c: CellId, a: nat, b: nat)
    requires MonotoneCursors(lib)
    requires a < b
    ensures NextIter(lib, c, a).id < NextIter(lib, c, b).id
    ensures PrevIter(lib, c, b).id < PrevIter(lib, c, a).id
  {
    if a < b - 1 {
      IterMonotone(lib, c, a, b - 1);
    }
  }

  /** `next^k(origin)` for `k >= 0`, `prev^-k(origin)` for `k < 0`: the cell `k` steps along Hilbert order. */
  function Cursor(lib: Library, origin: CellId, k: int): CellId
  {
    if k >= 0 then NextIter(lib, origin, k) else PrevIter(lib, origin, -k)
  }

  /** The signed step count of position `p` of the two-sided walk: 0, 1, -1, 2, -2, ... */
  function Rank(p: nat): int
  {
    if p % 2 == 1 then (p + 1) / 2 else -(p / 2)
  }

  lemma RankInjective(p: nat, q: nat)
    requires p != q
    ensures Rank(p) != Rank(q)
  {
    if p % 2 == 1 && q % 2 == 1 {
      assert p == 2 * Rank(p) - 1 && q == 2 * Rank(q) - 1;
    } else if p % 2 == 0 && q % 2 == 0 {
      assert p == -2 * Rank(p) && q == -2 * Rank(q);
    }
  }

  lemma CursorMonotone(lib: Library, origin: CellId, a: int, b: int)
    requires MonotoneCursors(lib)
    requires a < b
    ensures Cursor(lib, origin, a).id < Cursor(lib, origin, b).id
  {
    if 0 <= a {
      IterMonotone(lib, origin, a, b);
    } else if b <= 0 {
      IterMonotone(lib, origin, -b, -a);
    } else {
      IterMonotone(lib, origin, 0, -a);
      IterMonotone(lib, origin, 0, b);
    }
  }

  lemma TwoSidedWalkCursor(lib: Library, origin: CellId, radius: int, p: nat)
    requires p <= 2 * radius
    ensures |Walk(lib, origin, radius, true)| == 2 * radius + 1
    ensures Walk(lib, origin, radius, true)[p] == Cursor(lib, origin, Rank(p)).id
  {
    WalkLength(lib, origin, radius, true);
    if p > 0 {
      var k := (p + 1) / 2;
      assert p == 2 * k - 1 || p == 2 * k;
      TwoSidedWalkAt(lib, origin, radius, k);
    }
  }

  /**
   * Under monotone cursors no id is collected twice, so the sorted result of
   * `getCells` is strictly ascending. Without that library property nothing
   * rules out repeats.
   */
  lemma WalkDistinct(lib: Library, origin: CellId, radius: int, bothDirections: bool)
    requires MonotoneCursors(lib)
    ensures Distinct(Walk(lib, origin, radius, bothDirections))
    ensures forall i, j :: 0 <= i < j < |Sorted(Walk(lib, origin, radius, bothDirections))| ==>
      Sorted(Walk(lib, origin, radius, bothDirections))[i] < Sorted(Walk(lib, origin, radius, bothDirections))[j]
  {
    var w := Walk(lib, origin, radius, bothDirections);
    WalkLength(lib, origin, radius, bothDirections);
    forall p, q | 0 <= p < q < |w|
      ensures w[p] != w[q]
    {
      if bothDirections {
        TwoSidedWalkCursor(lib, origin, radius, p);
        TwoSidedWalkCursor(lib, origin, radius, q);
        RankInjective(p, q);
        if Rank(p) < Rank(q) {
          CursorMonotone(lib, origin, Rank(p), Rank(q));
        } else {
          CursorMonotone(lib, origin, Rank(q), Rank(p));
        }
      } else {
        OneSidedWalkAt(lib, origin, radius, p);
        OneSidedWalkAt(lib, origin, radius, q);
        IterMonotone(lib, origin, p, q);
      }
    }
    SortedOfDistinctIsStrict(w);
  }
}
