/** The battle field: a width x height torus of cells, the index from a cell
    to the ids of the agents standing on it, and the Moore neighbourhood
    with wrap-around that movement candidates are drawn from. */
module Grid {

  datatype Cell = Cell(x: int, y: int)

  predicate InBounds(width: int, height: int, c: Cell) {
    0 <= c.x < width && 0 <= c.y < height
  }

  /** Occupancy index: cells missing from the map are empty. Each cell holds
      a set of ids, so placing an agent where it already is changes nothing. */
  type Occupancy = map<Cell, set<nat>>

  function Occupants(cells: Occupancy, c: Cell): set<nat> {
    if c in cells then cells[c] else {}
  }

  /** Register `id` at cell `c`. */
  function Place(cells: Occupancy, id: nat, c: Cell): (r: Occupancy)
    ensures Occupants(r, c) == Occupants(cells, c) + {id}
    ensures forall d :: d != c ==> Occupants(r, d) == Occupants(cells, d)
  {
    cells[c := Occupants(cells, c) + {id}]
  }

  /** Deregister `id` from cell `c`; nothing happens if it is not there. */
  function Remove(cells: Occupancy, id: nat, c: Cell): (r: Occupancy)
    ensures Occupants(r, c) == Occupants(cells, c) - {id}
    ensures forall d :: d != c ==> Occupants(r, d) == Occupants(cells, d)
  {
    cells[c := Occupants(cells, c) - {id}]
  }

  /** Placing the same id on the same cell a second time has no effect. */
  lemma PlaceTwice(cells: Occupancy, id: nat, c: Cell)
    ensures Place(Place(cells, id, c), id, c) == Place(cells, id, c)
  {
  }

  // ---------------------------------------------------------------------
  // Moore neighbourhood on the torus

  /** Coordinate `a` moved by `k` along an axis of length `n`, wrapped. */
  function Shift(a: int, k: int, n: int): (r: int)
    requires n > 0
    ensures 0 <= r < n
  {
    (a + k) % n
  }

  /** Reference definition, one axis: some offset of at most `r` either way
      takes `a` to `b` once wrapped. */
  ghost predicate AxisReach(a: int, b: int, r: int, n: int)
    requires n > 0
  {
    exists k :: -r <= k <= r && Shift(a, k, n) == b
  }

  /** Computable form of AxisReach: the forward gap from `a` to `b` round
      the axis, or the backward one, is at most `r`. */
  predicate AxisNear(a: int, b: int, r: int, n: int)
    requires n > 0
  {
    var m := (b - a) % n;
    m <= r || n - m <= r
  }

  /** Euclidean division is unique: a quotient and a remainder in [0, n)
      that rebuild `x` are the ones `/` and `%` give. */
  lemma DivModUnique(x: int, n: int, q: int, m: int)
    requires n > 0 && 0 <= m < n && x == q * n + m
    ensures x / n == q && x % n == m
  {
    var q', m' := x / n, x % n;
    assert x == q' * n + m';
    assert (q - q') * n == m' - m;
    var d := q - q';
    assert d * n == m' - m;
    assert d >= 1 ==> d * n >= n;
    assert d <= -1 ==> d * n <= -n;
  }

  lemma ModAddMultiple(x: int, q: int, n: int)
    requires n > 0
    ensures (x + q * n) % n == x % n
  {
    assert x == (x / n) * n + x % n;
    assert x + q * n == (x / n + q) * n + x % n;
    DivModUnique(x + q * n, n, x / n + q, x % n);
  }

  /** The forward gap `k % n` of a non-negative offset is at most the
      offset, and the backward gap of a negative one is at most its size. */
  lemma ModGap(k: int, n: int)
    requires n > 0
    ensures k >= 0 ==> k % n <= k
    ensures k < 0 ==> n - k % n <= -k
  {
    var t, m := k / n, k % n;
    assert k == t * n + m;
    assert t >= 0 ==> t * n >= 0;
    assert t < 0 ==> (-t) * n >= n;
    assert (t + 1) * n == t * n + n;
    assert t + 1 <= 0 ==> (t + 1) * n <= 0;
  }

  /** The offset AxisNear measures does reach `b`. */
  lemma AxisNearReaches(a: int, b: int, r: int, n: int)
    requires n > 0 && 0 <= b < n && AxisNear(a, b, r, n)
    ensures AxisReach(a, b, r, n)
  {
    var m, q := (b - a) % n, (b - a) / n;
    assert b - a == q * n + m;
    DivModUnique(b, n, 0, b);
    if m <= r {
      ModAddMultiple(b, -q, n);
      assert a + m == b + (-q) * n;
      assert Shift(a, m, n) == b;
    } else {
      ModAddMultiple(b, -q - 1, n);
      assert a + (m - n) == b + (-q - 1) * n;
      assert Shift(a, m - n, n) == b;
    }
  }

  /** Any offset of at most `r` that reaches `b` shows the forward or the
      backward gap is at most `r`. */
  lemma AxisReachNear(a: int, b: int, r: int, n: int, k: int)
    requires n > 0 && -r <= k <= r && Shift(a, k, n) == b
    ensures AxisNear(a, b, r, n)
  {
    var m := (b - a) % n;
    var p := (a + k) / n;
    assert a + k == p * n + b;
    assert b - a == k + (-p) * n;
    ModAddMultiple(k, -p, n);
    assert m == k % n;
    ModGap(k, n);
  }

  lemma AxisNearIff(a: int, b: int, r: int, n: int)
    requires n > 0 && 0 <= b < n
    ensures AxisNear(a, b, r, n) <==> AxisReach(a, b, r, n)
  {
    if AxisNear(a, b, r, n) {
      AxisNearReaches(a, b, r, n);
    }
    if AxisReach(a, b, r, n) {
      var k :| -r <= k <= r && Shift(a, k, n) == b;
      AxisReachNear(a, b, r, n, k);
    }
  }

  /** `d` is a movement candidate from centre `c`: on the grid, within
      torus distance `r` along both axes, and not the centre itself. */
  predicate IsNeighbor(width: int, height: int, c: Cell, r: int, d: Cell)
    requires width > 0 && height > 0
  {
    InBounds(width, height, d) && d != c &&
    AxisNear(c.x, d.x, r, width) && AxisNear(c.y, d.y, r, height)
  }

  /** Candidates in column `x` with second coordinate at least `y`, by
      increasing y. */
  function ColumnFrom(width: int, height: int, c: Cell, r: int, x: int, y: int): (s: seq<Cell>)
    requires width > 0 && height > 0
    ensures forall d :: d in s <==> d.x == x && y <= d.y && IsNeighbor(width, height, c, r, d)
    ensures forall i :: 0 <= i < |s| ==> s[i].x == x
    ensures forall i, j :: 0 <= i < j < |s| ==> s[i].y < s[j].y
    decreases height - y
  {
    if y >= height then []
    else if y < 0 then ColumnFrom(width, height, c, r, x, 0)
    else
      var rest := ColumnFrom(width, height, c, r, x, y + 1);
      if IsNeighbor(width, height, c, r, Cell(x, y)) then [Cell(x, y)] + rest else rest
  }

  /** Candidates in columns `x` and beyond, column by column. */
  function ColumnsFrom(width: int, height: int, c: Cell, r: int, x: int): (s: seq<Cell>)
    requires width > 0 && height > 0
    ensures forall d :: d in s <==> x <= d.x && IsNeighbor(width, height, c, r, d)
    ensures forall i :: 0 <= i < |s| ==> x <= s[i].x
    ensures forall i, j :: 0 <= i < j < |s| ==> s[i] != s[j]
    decreases width - x
  {
    if x >= width then []
    else if x < 0 then ColumnsFrom(width, height, c, r, 0)
    else
      var col := ColumnFrom(width, height, c, r, x, 0);
      var rest := ColumnsFrom(width, height, c, r, x + 1);
      assert forall i :: 0 <= i < |rest| ==> x < rest[i].x;
      col + rest
  }

  /** The cells an agent at `c` may move to (Moore neighbourhood of radius
      `r` on the torus, centre excluded), each listed once. */
  function Neighborhood(width: int, height: int, c: Cell, r: int): (s: seq<Cell>)
    requires width > 0 && height > 0
    ensures forall d :: d in s <==> IsNeighbor(width, height, c, r, d)
    ensures forall i, j :: 0 <= i < j < |s| ==> s[i] != s[j]
    ensures c !in s
  {
    ColumnsFrom(width, height, c, r, 0)
  }

  /** The listed candidates are exactly the cells other than the centre that
      an offset (dx, dy) with |dx|, |dy| <= r reaches, coordinates wrapped
      modulo width and height. */
  lemma NeighborhoodIsMooreTorus(width: int, height: int, c: Cell, r: int, d: Cell)
    requires width > 0 && height > 0
    ensures d in Neighborhood(width, height, c, r) <==>
              d != c &&
              exists dx, dy :: -r <= dx <= r && -r <= dy <= r &&
                                d == Cell(Shift(c.x, dx, width), Shift(c.y, dy, height))
  {
    if d in Neighborhood(width, height, c, r) {
      AxisNearIff(c.x, d.x, r, width);
      AxisNearIff(c.y, d.y, r, height);
      var dx :| -r <= dx <= r && Shift(c.x, dx, width) == d.x;
      var dy :| -r <= dy <= r && Shift(c.y, dy, height) == d.y;
      assert d == Cell(Shift(c.x, dx, width), Shift(c.y, dy, height));
    }
    if d != c && exists dx, dy :: -r <= dx <= r && -r <= dy <= r &&
                                  d == Cell(Shift(c.x, dx, width), Shift(c.y, dy, height)) {
      var dx, dy :| -r <= dx <= r && -r <= dy <= r &&
                    d == Cell(Shift(c.x, dx, width), Shift(c.y, dy, height));
      assert AxisReach(c.x, d.x, r, width);
      assert AxisReach(c.y, d.y, r, height);
      AxisNearIff(c.x, d.x, r, width);
      AxisNearIff(c.y, d.y, r, height);
    }
  }

  /** On a 1 x 1 torus every offset wraps back to the centre, which is
      excluded, so there is nowhere to move. */
  lemma SingleCellHasNoNeighbors(r: int)
    ensures Neighborhood(1, 1, Cell(0, 0), r) == []
  {
  }
}
