/** The bulk noise map in the plane: one walk over the lattice for each octave. */
module NoiseMap2D {
  import opened Flat
  import opened NoiseValue
  import opened NoiseWalk

  ghost function LatticeCells(k: Kernel, x0: int, y0: int, seed: int): Cells2 {
    (i: nat, j: nat) => k.noise2d(x0 + i, y0 + j, seed)
  }

  /** The values a map should hold: noise at steps of (stepX, stepY) from (x, y). */
  ghost function ValueCells(k: Kernel, x: real, y: real, stepX: real, stepY: real, seed: int, eased: bool): Cells2 {
    (i: nat, j: nat) => Value2D(k, x + Times(i, stepX), y + Times(j, stepY), seed, eased)
  }

  /** The values that walking in both directions yields. */
  ghost function WalkCells(k: Kernel, x: real, y: real, stepX: real, stepY: real, seed: int, eased: bool): Cells2 {
    (i: nat, j: nat) =>
      var p, q := WalkAt(x, stepX, i), WalkAt(y, stepY, j);
      k.blend2(Corners2(k, x.Floor + p.cell, y.Floor + q.cell, seed), p.frac, q.frac, eased)
  }

  /** They are the noise at the points that the walk is on. */
  lemma WalkedIsNoise(k: Kernel, x: real, y: real, stepX: real, stepY: real, seed: int, eased: bool, i: nat, j: nat)
    requires OnPoint(x, stepX, i) && OnPoint(y, stepY, j)
    ensures WalkCells(k, x, y, stepX, stepY, seed, eased)(i, j) == ValueCells(k, x, y, stepX, stepY, seed, eased)(i, j)
  {
    hide Corners2, Times, WalkAt;
  }

  // The lattice around a map: its origin and how many points it has.
  datatype Lattice = Lattice(x0: int, y0: int, nlx: nat, nly: nat, seed: int)

  function LatticeAt(k: Kernel, l: Lattice, i: nat, j: nat): real {
    k.noise2d(l.x0 + i, l.y0 + j, l.seed)
  }

  ghost predicate Holds(k: Kernel, l: Lattice, buf: seq<real>) {
    Rows(l.nlx, l.nly) <= |buf| && buf[..Rows(l.nlx, l.nly)] == Flat2(l.nlx, l.nly, LatticeCells(k, l.x0, l.y0, l.seed))
  }

  /** Fills the front of the buffer with the lattice points, row by row. */
  method FillLattice(k: Kernel, l: Lattice, buf: array<real>)
    requires Rows(l.nlx, l.nly) <= buf.Length
    modifies buf
    ensures Holds(k, l, buf[..])
  {
    ghost var cells := LatticeCells(k, l.x0, l.y0, l.seed);
    var index := 0;
    for j := 0 to l.nly
      invariant index == Rows(l.nlx, j) <= buf.Length
      invariant buf[..index] == Flat2(l.nlx, j, cells)
    {
      ghost var before := Flat2(l.nlx, j, cells);
      RowsMonotone(l.nlx, j + 1, l.nlx, l.nly);
      for i := 0 to l.nlx
        invariant index == Rows(l.nlx, j) + i
        invariant buf[..index] == before + Line(i, j, cells)
      {
        LineSnoc(i, j, cells);
        buf[index] := k.noise2d(l.x0 + i, l.y0 + j, l.seed);
        index := index + 1;
        assert buf[..index] == buf[..index - 1] + [buf[index - 1]];
      }
    }
  }

  /** noise_buf[idx(i, j)]. */
  method Point(k: Kernel, l: Lattice, buf: array<real>, i: nat, j: nat) returns (v: real)
    requires Holds(k, l, buf[..]) && i < l.nlx && j < l.nly
    ensures v == LatticeAt(k, l, i, j)
  {
    Flat2At(l.nlx, l.nly, LatticeCells(k, l.x0, l.y0, l.seed), i, j);
    RowsIsProduct(l.nlx, j);
    v := buf[j * l.nlx + i];
    assert v == buf[..Rows(l.nlx, l.nly)][Rows(l.nlx, j) + i];
  }

  /** The lattice points (i, j) and (i, j + 1). */
  method Edge(k: Kernel, l: Lattice, buf: array<real>, i: nat, j: nat) returns (v0: real, v1: real)
    requires Holds(k, l, buf[..]) && i < l.nlx && j + 1 < l.nly
    ensures v0 == LatticeAt(k, l, i, j) && v1 == LatticeAt(k, l, i, j + 1)
  {
    v0 := Point(k, l, buf, i, j);
    v1 := Point(k, l, buf, i, j + 1);
  }

  /** The four corner values of lattice cell (i, j). */
  ghost predicate AtCell(k: Kernel, l: Lattice, i: nat, j: nat, v00: real, v10: real, v01: real, v11: real) {
    && v00 == LatticeAt(k, l, i, j) && v10 == LatticeAt(k, l, i + 1, j)
    && v01 == LatticeAt(k, l, i, j + 1) && v11 == LatticeAt(k, l, i + 1, j + 1)
  }

  // Where the walk over a row is: the cell, how far into it, and the values at its corners.
  datatype Spot = Spot(noisex: nat, u: real, v00: real, v10: real, v01: real, v11: real)

  ghost predicate OnRow(k: Kernel, l: Lattice, x: real, stepX: real, w: nat, noisey: nat, i: nat, s: Spot) {
    && WalkAt(x, stepX, i) == Walk(s.noisex, s.u)
    && (i <= w ==> s.noisex + 2 <= l.nlx)
    && AtCell(k, l, s.noisex, noisey, s.v00, s.v10, s.v01, s.v11)
  }

  lemma CornersAre(k: Kernel, l: Lattice, x: real, stepX: real, w: nat, noisey: nat, i: nat, s: Spot)
    requires OnRow(k, l, x, stepX, w, noisey, i, s)
    ensures Corners2(k, l.x0 + s.noisex, l.y0 + noisey, l.seed) == [s.v00, s.v10, s.v01, s.v11]
  {
    hide WalkAt;
  }

  /** The interpolation at the walk's place gives the cell of the map. */
  lemma CellIs(k: Kernel, l: Lattice, x: real, stepX: real, i: nat, s: Spot,
               y: real, stepY: real, j: nat, noisey: nat, v: real, eased: bool, w: nat)
    requires OnRow(k, l, x, stepX, w, noisey, i, s) && WalkAt(y, stepY, j) == Walk(noisey, v)
    requires l.x0 == x.Floor && l.y0 == y.Floor
    ensures WalkCells(k, x, y, stepX, stepY, l.seed, eased)(i, j) ==
            k.blend2([s.v00, s.v10, s.v01, s.v11], s.u, v, eased)
  {
    hide AtCell, Corners2, WalkAt;
    CornersAre(k, l, x, stepX, w, noisey, i, s);
  }

  /** One step along the row: `u` advances, and leaves the lattice cell when it reaches 1. */
  method Advance(k: Kernel, l: Lattice, lattice: array<real>, ghost x: real, stepX: real, ghost w: nat, noisey: nat,
                 ghost i: nat, s: Spot)
    returns (t: Spot)
    requires Holds(k, l, lattice[..]) && 0.0 <= stepX && l.nlx == Points(x, w, stepX) && noisey + 1 < l.nly
    requires i < w && OnRow(k, l, x, stepX, w, noisey, i, s)
    ensures OnRow(k, l, x, stepX, w, noisey, i + 1, t)
  {
    WalkNext(x, stepX, i);
    WalkBound(x, stepX, i + 1, w);
    t := s.(u := s.u + stepX);
    if t.u >= 1.0 {
      var v10, v11 := Edge(k, l, lattice, s.noisex + 2, noisey);
      t := Spot(s.noisex + 1, t.u - 1.0, s.v10, v10, s.v11, v11);
    }
  }

  method RowValues(k: Kernel, l: Lattice, lattice: array<real>, values: array<real>, w: nat, ghost j: nat,
                   noisey: nat, u0: real, v: real, stepX: real, eased: bool, start: nat,
                   ghost x: real, ghost y: real, ghost stepY: real)
    requires lattice != values && Holds(k, l, lattice[..])
    requires start + w <= values.Length && 0.0 <= stepX
    requires WalkAt(x, stepX, 0) == Walk(0, u0) && WalkAt(y, stepY, j) == Walk(noisey, v)
    requires l.x0 == x.Floor && l.y0 == y.Floor && l.nlx == Points(x, w, stepX) && noisey + 1 < l.nly
    modifies values
    ensures values[..start + w] == old(values[..start]) + Line(w, j, WalkCells(k, x, y, stepX, stepY, l.seed, eased))
  {
    hide WalkAt, Holds, Points, WalkCells, Line;
    ghost var cells := WalkCells(k, x, y, stepX, stepY, l.seed, eased);
    ghost var before := values[..start];
    WalkBound(x, stepX, 0, w);
    var v00, v01 := Edge(k, l, lattice, 0, noisey);
    var v10, v11 := Edge(k, l, lattice, 1, noisey);
    var s := Spot(0, u0, v00, v10, v01, v11);
    for i := 0 to w
      invariant Holds(k, l, lattice[..])
      invariant OnRow(k, l, x, stepX, w, noisey, i, s)
      invariant values[..start + i] == before + Line(i, j, cells)
    {
      CellIs(k, l, x, stepX, i, s, y, stepY, j, noisey, v, eased, w);
      LineSnoc(i, j, cells);
      values[start + i] := k.blend2([s.v00, s.v10, s.v01, s.v11], s.u, v, eased);
      assert values[..start + i + 1] == values[..start + i] + [values[start + i]];
      s := Advance(k, l, lattice, x, stepX, w, noisey, i, s);
    }
  }

  /** valueMap2D: the lattice first, then the interpolated values row by row. */
  method ValueMap(k: Kernel, lattice: array<real>, values: array<real>, sx: nat, sy: nat,
                  x: real, y: real, stepX: real, stepY: real, seed: int, eased: bool)
    requires lattice != values && Rows(sx, sy) <= values.Length
    requires 0.0 <= stepX && 0.0 <= stepY
    requires Rows(Points(x, sx, stepX), Points(y, sy, stepY)) <= lattice.Length
    modifies lattice, values
    ensures values[..Rows(sx, sy)] == Flat2(sx, sy, WalkCells(k, x, y, stepX, stepY, seed, eased))
  {
    hide Holds, WalkCells, Points, WalkAt;
    var x0, nlx, u := Axis(x, sx, stepX);
    var y0, nly, v := Axis(y, sy, stepY);
    var l := Lattice(x0, y0, nlx, nly, seed);
    FillLattice(k, l, lattice);
    ghost var cells := WalkCells(k, x, y, stepX, stepY, seed, eased);
    var index, noisey := 0, 0;
    for j := 0 to sy
      invariant Holds(k, l, lattice[..])
      invariant index == Rows(sx, j) <= values.Length && WalkAt(y, stepY, j) == Walk(noisey, v)
      invariant values[..index] == Flat2(sx, j, cells)
    {
      RowsMonotone(sx, j + 1, sx, sy);
      WalkBound(y, stepY, j, sy);
      RowValues(k, l, lattice, values, sx, j, noisey, u, v, stepX, eased, index, x, y, stepY);
      index := index + sx;
      WalkNext(y, stepY, j);
      v := v + stepY;
      if v >= 1.0 {
        v := v - 1.0;
        noisey := noisey + 1;
      }
    }
  }
}
