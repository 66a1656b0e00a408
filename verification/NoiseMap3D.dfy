/** The bulk noise map in space: the same walk with one more axis. */
module NoiseMap3D {
  import opened Flat
  import opened NoiseValue
  import opened NoiseWalk

  datatype Lattice = Lattice(x0: int, y0: int, z0: int, nlx: nat, nly: nat, nlz: nat, seed: int)

  function LatticeAt(k: Kernel, l: Lattice, i: nat, j: nat, d: nat): real {
    k.noise3d(l.x0 + i, l.y0 + j, l.z0 + d, l.seed)
  }

  ghost function LatticeCells(k: Kernel, l: Lattice): Cells3 {
    (i: nat, j: nat, d: nat) => LatticeAt(k, l, i, j, d)
  }

  ghost function ValueCells(k: Kernel, x: real, y: real, z: real, stepX: real, stepY: real, stepZ: real,
                            seed: int, eased: bool): Cells3
  {
    (i: nat, j: nat, d: nat) => Value3D(k, x + Times(i, stepX), y + Times(j, stepY), z + Times(d, stepZ), seed, eased)
  }

  // What a value map is asked for.
  datatype Request = Request(x: real, y: real, z: real, stepX: real, stepY: real, stepZ: real, seed: int, eased: bool)

  ghost function Wanted(k: Kernel, q: Request): Cells3 {
    ValueCells(k, q.x, q.y, q.z, q.stepX, q.stepY, q.stepZ, q.seed, q.eased)
  }

  /** The values that walking in all directions yields. */
  ghost function WalkCells(k: Kernel, q: Request): Cells3 {
    (i: nat, j: nat, d: nat) =>
      var a, b, c := WalkAt(q.x, q.stepX, i), WalkAt(q.y, q.stepY, j), WalkAt(q.z, q.stepZ, d);
      k.blend3(Corners3(k, q.x.Floor + a.cell, q.y.Floor + b.cell, q.z.Floor + c.cell, q.seed), a.frac, b.frac, c.frac, q.eased)
  }

  /** They are the noise at the points that the walk is on. */
  lemma WalkedIsNoise(k: Kernel, q: Request, i: nat, j: nat, d: nat)
    requires OnPoint(q.x, q.stepX, i) && OnPoint(q.y, q.stepY, j) && OnPoint(q.z, q.stepZ, d)
    ensures WalkCells(k, q)(i, j, d) == Wanted(k, q)(i, j, d)
  {
    hide Corners3, Times, WalkAt;
  }

  function Size(l: Lattice): nat { Rows(Rows(l.nlx, l.nly), l.nlz) }

  ghost predicate Holds(k: Kernel, l: Lattice, buf: seq<real>) {
    Size(l) <= |buf| && buf[..Size(l)] == Flat3(l.nlx, l.nly, l.nlz, LatticeCells(k, l))
  }

  method FillLattice(k: Kernel, l: Lattice, buf: array<real>)
    requires Size(l) <= buf.Length
    modifies buf
    ensures Holds(k, l, buf[..])
  {
    ghost var cells := LatticeCells(k, l);
    var index := 0;
    for d := 0 to l.nlz
      invariant index == Rows(Rows(l.nlx, l.nly), d) <= buf.Length
      invariant buf[..index] == Flat3(l.nlx, l.nly, d, cells)
    {
      RowsMonotone(Rows(l.nlx, l.nly), d + 1, Rows(l.nlx, l.nly), l.nlz);
      FillPlane(k, l, buf, index, d);
      index := index + l.nlx * l.nly;
      RowsIsProduct(l.nlx, l.nly);
    }
  }

  lemma PlaneCell(k: Kernel, l: Lattice, i: nat, j: nat, d: nat)
    ensures Plane(d, LatticeCells(k, l))(i, j) == k.noise3d(l.x0 + i, l.y0 + j, l.z0 + d, l.seed)
  {
  }

  /** One plane of the lattice. */
  method FillPlane(k: Kernel, l: Lattice, buf: array<real>, start: nat, d: nat)
    requires start + Rows(l.nlx, l.nly) <= buf.Length
    modifies buf
    ensures buf[..start + Rows(l.nlx, l.nly)] == old(buf[..start]) + Flat2(l.nlx, l.nly, Plane(d, LatticeCells(k, l)))
  {
    hide Plane, Line;
    ghost var cells, base := Plane(d, LatticeCells(k, l)), buf[..start];
    for j := 0 to l.nly
      invariant start + Rows(l.nlx, j) <= buf.Length
      invariant buf[..start + Rows(l.nlx, j)] == base + Flat2(l.nlx, j, cells)
    {
      RowsMonotone(l.nlx, j + 1, l.nlx, l.nly);
      RowsIsProduct(l.nlx, j);
      FillLine(k, l, buf, start + j * l.nlx, j, d);
    }
    RowsIsProduct(l.nlx, l.nly);
  }

  method FillLine(k: Kernel, l: Lattice, buf: array<real>, start: nat, j: nat, d: nat)
    requires start + l.nlx <= buf.Length
    modifies buf
    ensures buf[..start + l.nlx] == old(buf[..start]) + Line(l.nlx, j, Plane(d, LatticeCells(k, l)))
  {
    hide Plane, Line;
    ghost var cells, before := Plane(d, LatticeCells(k, l)), buf[..start];
    for i := 0 to l.nlx
      invariant buf[..start + i] == before + Line(i, j, cells)
    {
      LineSnoc(i, j, cells);
      PlaneCell(k, l, i, j, d);
      buf[start + i] := k.noise3d(l.x0 + i, l.y0 + j, l.z0 + d, l.seed);
      assert buf[..start + i + 1] == buf[..start + i] + [buf[start + i]];
    }
  }

  /** noise_buf[idx(i, j, d)]. */
  method Point(k: Kernel, l: Lattice, buf: array<real>, i: nat, j: nat, d: nat) returns (v: real)
    requires Holds(k, l, buf[..]) && i < l.nlx && j < l.nly && d < l.nlz
    ensures v == LatticeAt(k, l, i, j, d)
  {
    Flat3At(l.nlx, l.nly, l.nlz, LatticeCells(k, l), i, j, d);
    var index := PointIndex(l, i, j, d);
    v := buf[index];
    assert v == buf[..Size(l)][index];
  }

  method PointIndex(l: Lattice, i: nat, j: nat, d: nat) returns (index: nat)
    ensures index == Rows(Rows(l.nlx, l.nly), d) + Rows(l.nlx, j) + i
  {
    RowsIsProduct(l.nlx, j);
    RowsIsProduct(l.nlx, l.nly);
    RowsIsProduct(Rows(l.nlx, l.nly), d);
    index := d * (l.nly * l.nlx) + j * l.nlx + i;
  }

  // The four lattice points over (i, j) .. (i, j + 1) and d .. d + 1.
  datatype Side = Side(v00: real, v10: real, v01: real, v11: real)

  ghost predicate AtSide(k: Kernel, l: Lattice, i: nat, j: nat, d: nat, s: Side) {
    && s.v00 == LatticeAt(k, l, i, j, d) && s.v10 == LatticeAt(k, l, i, j + 1, d)
    && s.v01 == LatticeAt(k, l, i, j, d + 1) && s.v11 == LatticeAt(k, l, i, j + 1, d + 1)
  }

  method SideAt(k: Kernel, l: Lattice, buf: array<real>, i: nat, j: nat, d: nat) returns (s: Side)
    requires Holds(k, l, buf[..]) && i < l.nlx && j + 1 < l.nly && d + 1 < l.nlz
    ensures AtSide(k, l, i, j, d, s)
  {
    var v00 := Point(k, l, buf, i, j, d);
    var v10 := Point(k, l, buf, i, j + 1, d);
    var v01 := Point(k, l, buf, i, j, d + 1);
    var v11 := Point(k, l, buf, i, j + 1, d + 1);
    s := Side(v00, v10, v01, v11);
  }

  // Where the walk over a row is: the lattice cell, how far into it, and the values on its two sides.
  datatype Spot = Spot(noisex: nat, u: real, near: Side, far: Side)

  ghost predicate OnRow(k: Kernel, l: Lattice, x: real, stepX: real, w: nat, noisey: nat, noisez: nat, i: nat, s: Spot) {
    && WalkAt(x, stepX, i) == Walk(s.noisex, s.u)
    && (i <= w ==> s.noisex + 2 <= l.nlx)
    && AtSide(k, l, s.noisex, noisey, noisez, s.near)
    && AtSide(k, l, s.noisex + 1, noisey, noisez, s.far)
  }

  function CornersOf(s: Spot): seq<real> {
    [s.near.v00, s.far.v00, s.near.v10, s.far.v10, s.near.v01, s.far.v01, s.near.v11, s.far.v11]
  }

  // The other two coordinates while a row is walked.
  datatype RowAt = RowAt(noisey: nat, v: real, noisez: nat, w: real)

  /** The lattice starts in the cell where the walk does. */
  predicate AtOrigin(q: Request, l: Lattice) {
    l.x0 == q.x.Floor && l.y0 == q.y.Floor && l.z0 == q.z.Floor && l.seed == q.seed
  }

  ghost predicate OnPlane(q: Request, l: Lattice, j: nat, d: nat, r: RowAt) {
    && WalkAt(q.y, q.stepY, j) == Walk(r.noisey, r.v) && r.noisey + 1 < l.nly
    && WalkAt(q.z, q.stepZ, d) == Walk(r.noisez, r.w) && r.noisez + 1 < l.nlz
    && AtOrigin(q, l)
  }

  lemma CornersAre(k: Kernel, l: Lattice, q: Request, w: nat, i: nat, s: Spot, r: RowAt)
    requires OnRow(k, l, q.x, q.stepX, w, r.noisey, r.noisez, i, s)
    ensures Corners3(k, l.x0 + s.noisex, l.y0 + r.noisey, l.z0 + r.noisez, l.seed) == CornersOf(s)
  {
    hide WalkAt;
  }

  lemma CellIs(k: Kernel, l: Lattice, q: Request, w: nat, i: nat, s: Spot, j: nat, d: nat, r: RowAt)
    requires OnRow(k, l, q.x, q.stepX, w, r.noisey, r.noisez, i, s) && OnPlane(q, l, j, d, r)
    ensures WalkCells(k, q)(i, j, d) == k.blend3(CornersOf(s), s.u, r.v, r.w, q.eased)
  {
    hide WalkAt, AtSide, Corners3, CornersOf;
    CornersAre(k, l, q, w, i, s, r);
  }

  method Advance(k: Kernel, l: Lattice, lattice: array<real>, ghost x: real, stepX: real, ghost w: nat, r: RowAt,
                 ghost i: nat, s: Spot)
    returns (t: Spot)
    requires Holds(k, l, lattice[..]) && 0.0 <= stepX && l.nlx == Points(x, w, stepX)
    requires r.noisey + 1 < l.nly && r.noisez + 1 < l.nlz
    requires i < w && OnRow(k, l, x, stepX, w, r.noisey, r.noisez, i, s)
    ensures OnRow(k, l, x, stepX, w, r.noisey, r.noisez, i + 1, t)
  {
    WalkNext(x, stepX, i);
    WalkBound(x, stepX, i + 1, w);
    t := s.(u := s.u + stepX);
    if t.u >= 1.0 {
      var far := SideAt(k, l, lattice, s.noisex + 2, r.noisey, r.noisez);
      t := Spot(s.noisex + 1, t.u - 1.0, s.far, far);
    }
  }

  method RowValues(k: Kernel, l: Lattice, lattice: array<real>, values: array<real>, w: nat, q: Request,
                   u0: real, r: RowAt, start: nat, ghost j: nat, ghost d: nat)
    requires lattice != values && Holds(k, l, lattice[..]) && start + w <= values.Length
    requires 0.0 <= q.stepX && l.nlx == Points(q.x, w, q.stepX)
    requires WalkAt(q.x, q.stepX, 0) == Walk(0, u0) && OnPlane(q, l, j, d, r)
    modifies values
    ensures values[..start + w] == old(values[..start]) + Line(w, j, Plane(d, WalkCells(k, q)))
  {
    hide WalkAt, WalkCells, Points, Holds, Line, AtSide;
    ghost var cells, before := Plane(d, WalkCells(k, q)), values[..start];
    WalkBound(q.x, q.stepX, 0, w);
    var near := SideAt(k, l, lattice, 0, r.noisey, r.noisez);
    var far := SideAt(k, l, lattice, 1, r.noisey, r.noisez);
    var s := Spot(0, u0, near, far);
    for i := 0 to w
      invariant Holds(k, l, lattice[..])
      invariant OnRow(k, l, q.x, q.stepX, w, r.noisey, r.noisez, i, s)
      invariant values[..start + i] == before + Line(i, j, cells)
    {
      CellIs(k, l, q, w, i, s, j, d, r);
      LineSnoc(i, j, cells);
      values[start + i] := k.blend3(CornersOf(s), s.u, r.v, r.w, q.eased);
      assert values[..start + i + 1] == values[..start + i] + [values[start + i]];
      s := Advance(k, l, lattice, q.x, q.stepX, w, r, i, s);
    }
  }

  /** The rows of one plane of the map. */
  method PlaneValues(k: Kernel, l: Lattice, lattice: array<real>, values: array<real>, sx: nat, sy: nat, q: Request,
                     u0: real, v0: real, noisez: nat, w: real, start: nat, ghost d: nat)
    requires lattice != values && Holds(k, l, lattice[..]) && start + Rows(sx, sy) <= values.Length
    requires 0.0 <= q.stepX && 0.0 <= q.stepY && AtOrigin(q, l)
    requires l.nlx == Points(q.x, sx, q.stepX) && l.nly == Points(q.y, sy, q.stepY)
    requires WalkAt(q.x, q.stepX, 0) == Walk(0, u0) && WalkAt(q.y, q.stepY, 0) == Walk(0, v0)
    requires WalkAt(q.z, q.stepZ, d) == Walk(noisez, w) && noisez + 1 < l.nlz
    modifies values
    ensures values[..start + Rows(sx, sy)] == old(values[..start]) + Flat2(sx, sy, Plane(d, WalkCells(k, q)))
  {
    hide Holds, WalkCells, Plane, WalkAt, Points;
    ghost var cells, before := Plane(d, WalkCells(k, q)), values[..start];
    var r, index := RowAt(0, v0, noisez, w), start;
    for j := 0 to sy
      invariant Holds(k, l, lattice[..])
      invariant index == start + Rows(sx, j) <= values.Length
      invariant WalkAt(q.y, q.stepY, j) == Walk(r.noisey, r.v) && r.noisez == noisez && r.w == w
      invariant values[..index] == before + Flat2(sx, j, cells)
    {
      RowsMonotone(sx, j + 1, sx, sy);
      WalkBound(q.y, q.stepY, j, sy);
      RowValues(k, l, lattice, values, sx, q, u0, r, index, j, d);
      index := index + sx;
      WalkNext(q.y, q.stepY, j);
      r := r.(v := r.v + q.stepY);
      if r.v >= 1.0 {
        r := r.(v := r.v - 1.0, noisey := r.noisey + 1);
      }
    }
  }

  /** valueMap3D. */
  method ValueMap(k: Kernel, lattice: array<real>, values: array<real>, sx: nat, sy: nat, sz: nat, q: Request)
    requires lattice != values && Rows(Rows(sx, sy), sz) <= values.Length
    requires 0.0 <= q.stepX && 0.0 <= q.stepY && 0.0 <= q.stepZ
    requires Rows(Rows(Points(q.x, sx, q.stepX), Points(q.y, sy, q.stepY)), Points(q.z, sz, q.stepZ))
             <= lattice.Length
    modifies lattice, values
    ensures values[..Rows(Rows(sx, sy), sz)] == Flat3(sx, sy, sz, WalkCells(k, q))
  {
    hide Holds, WalkCells, Plane, Points, WalkAt;
    var x0, nlx, u := Axis(q.x, sx, q.stepX);
    var y0, nly, v := Axis(q.y, sy, q.stepY);
    var z0, nlz, w := Axis(q.z, sz, q.stepZ);
    var l := Lattice(x0, y0, z0, nlx, nly, nlz, q.seed);
    FillLattice(k, l, lattice);
    var index, noisez := 0, 0;
    for d := 0 to sz
      invariant Holds(k, l, lattice[..])
      invariant index == Rows(Rows(sx, sy), d) <= values.Length
      invariant WalkAt(q.z, q.stepZ, d) == Walk(noisez, w)
      invariant values[..index] == Flat3(sx, sy, d, WalkCells(k, q))
    {
      RowsMonotone(Rows(sx, sy), d + 1, Rows(sx, sy), sz);
      WalkBound(q.z, q.stepZ, d, sz);
      PlaneValues(k, l, lattice, values, sx, sy, q, u, v, noisez, w, index, d);
      index := index + PlaneSize(sx, sy);
      WalkNext(q.z, q.stepZ, d);
      w := w + q.stepZ;
      if w >= 1.0 {
        w := w - 1.0;
        noisez := noisez + 1;
      }
    }
  }

  function PlaneSize(sx: nat, sy: nat): (n: nat)
    ensures n == Rows(sx, sy)
  {
    RowsIsProduct(sx, sy);
    sy * sx
  }
}
