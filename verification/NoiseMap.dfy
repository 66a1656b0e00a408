/** Bulk noise maps: the octaves added up cell by cell, against the fractal formula at each cell's point. */
module NoiseMap {
  import opened Flat
  import opened NoiseValue
  import opened NoiseBuffers
  import opened NoiseFit
  import opened NoiseWalk
  import Plane2D = NoiseMap2D
  import Space3D = NoiseMap3D

  const TOLERANCE := 0.00001

  predicate Rescaled(np: NoiseParams) {
    Abs(np.offset) > TOLERANCE || Abs(np.scale - 1.0) > TOLERANCE
  }

  function Finish(np: NoiseParams, a: real): real {
    if Rescaled(np) then a * np.scale + np.offset else a
  }

  /** Offset and scale are either applied, or do nothing. */
  predicate ExactFinish(np: NoiseParams) {
    || np.offset < -0.00001 || 0.00001 < np.offset || np.scale < 0.99999 || 1.00001 < np.scale
    || (np.offset == 0.0 && np.scale == 1.0)
  }

  /** Skipping the rescaling is harmless for every sum of octaves only if there is nothing to rescale. */
  lemma FinishIsExact(np: NoiseParams)
    ensures ExactFinish(np) <==> forall a: real :: Finish(np, a) == np.offset + a * np.scale
  {
    if !ExactFinish(np) {
      assert Finish(np, 0.0) == 0.0 && Finish(np, 1.0) == 1.0;
      assert np.offset + 0.0 * np.scale == np.offset && np.offset + 1.0 * np.scale == np.offset + np.scale;
    }
  }

  ghost function Cell2(s: seq<real>, sx: nat, i: nat, j: nat): real {
    if Rows(sx, j) + i < |s| then s[Rows(sx, j) + i] else 0.0
  }

  ghost function Cell3(s: seq<real>, sx: nat, sy: nat, i: nat, j: nat, d: nat): real {
    if Rows(Rows(sx, sy), d) + Rows(sx, j) + i < |s| then s[Rows(Rows(sx, sy), d) + Rows(sx, j) + i] else 0.0
  }

  ghost predicate Grid2(s: seq<real>, sx: nat, sy: nat, f: Cells2) {
    forall i: nat, j: nat {:trigger Cell2(s, sx, i, j)} :: i < sx && j < sy ==> Cell2(s, sx, i, j) == f(i, j)
  }

  ghost predicate Grid3(s: seq<real>, sx: nat, sy: nat, sz: nat, f: Cells3) {
    forall i: nat, j: nat, d: nat {:trigger Cell3(s, sx, sy, i, j, d)} ::
      i < sx && j < sy && d < sz ==> Cell3(s, sx, sy, i, j, d) == f(i, j, d)
  }

  /** What `n` octaves should have added up to. */
  ghost function Sums2(k: Kernel, np: NoiseParams, x: real, y: real, seed: int, n: nat): Cells2
    requires np.spreadX != 0.0 && np.spreadY != 0.0
  {
    (i: nat, j: nat) => Octaves2D(k, np, (x + i as real) / np.spreadX, (y + j as real) / np.spreadY, seed, n)
  }

  ghost function Sums3(k: Kernel, np: NoiseParams, x: real, y: real, z: real, seed: int, n: nat): Cells3
    requires np.spreadX != 0.0 && np.spreadY != 0.0 && np.spreadZ != 0.0
  {
    (i: nat, j: nat, d: nat) =>
      Octaves3D(k, np, (x + i as real) / np.spreadX, (y + j as real) / np.spreadY, (z + d as real) / np.spreadZ, seed, n)
  }

  /** What finishing makes of sums. */
  ghost function Finished2(np: NoiseParams, f: Cells2): Cells2 {
    (i: nat, j: nat) => Finish(np, f(i, j))
  }

  ghost function Finished3(np: NoiseParams, f: Cells3): Cells3 {
    (i: nat, j: nat, d: nat) => Finish(np, f(i, j, d))
  }

  /** Fractal noise at the points of a map from (x, y) on. */
  ghost function Fractals2(k: Kernel, np: NoiseParams, x: real, y: real, seed: int): Cells2
    requires np.spreadX != 0.0 && np.spreadY != 0.0
  {
    (i: nat, j: nat) => Fractal2D(k, np, x + i as real, y + j as real, seed)
  }

  ghost function Fractals3(k: Kernel, np: NoiseParams, x: real, y: real, z: real, seed: int): Cells3
    requires np.spreadX != 0.0 && np.spreadY != 0.0 && np.spreadZ != 0.0
  {
    (i: nat, j: nat, d: nat) => Fractal3D(k, np, x + i as real, y + j as real, z + d as real, seed)
  }

  /** Where the walk of frequency `f` is for the point `p`. */
  function StartAt(p: real, spread: real, f: real): real
    requires spread != 0.0
  {
    p / spread * f
  }

  function StepOf(f: real, spread: real): real
    requires spread != 0.0
  {
    f / spread
  }

  /** What the walk of one octave yields for a cell. */
  ghost function WalkOctave2(k: Kernel, np: NoiseParams, x: real, y: real, seed: int, oct: nat, i: nat, j: nat): real
    requires np.spreadX != 0.0 && np.spreadY != 0.0
  {
    var f := Pow(np.lacunarity, oct);
    Plane2D.WalkCells(k, StartAt(x, np.spreadX, f), StartAt(y, np.spreadY, f), StepOf(f, np.spreadX), StepOf(f, np.spreadY),
                      seed, np.defaults || np.eased)(i, j)
  }

  ghost function WalkSum2(k: Kernel, np: NoiseParams, x: real, y: real, seed: int, n: nat, i: nat, j: nat): real
    requires np.spreadX != 0.0 && np.spreadY != 0.0
  {
    if n == 0 then 0.0
    else
      WalkSum2(k, np, x, y, seed, n - 1, i, j) +
      Pow(np.persist, n - 1) * Flagged(np, WalkOctave2(k, np, x, y, seed + (n - 1), n - 1, i, j))
  }

  /** What `n` octaves add up to. */
  ghost function WalkSums2(k: Kernel, np: NoiseParams, x: real, y: real, seed: int, n: nat): Cells2
    requires np.spreadX != 0.0 && np.spreadY != 0.0
  {
    (i: nat, j: nat) => WalkSum2(k, np, x, y, seed, n, i, j)
  }

  ghost function OctaveRequest(np: NoiseParams, x: real, y: real, z: real, seed: int, oct: nat): Space3D.Request
    requires np.spreadX != 0.0 && np.spreadY != 0.0 && np.spreadZ != 0.0
  {
    var f := Pow(np.lacunarity, oct);
    Space3D.Request(StartAt(x, np.spreadX, f), StartAt(y, np.spreadY, f), StartAt(z, np.spreadZ, f),
                    StepOf(f, np.spreadX), StepOf(f, np.spreadY), StepOf(f, np.spreadZ), seed, np.eased)
  }

  ghost function WalkOctave3(k: Kernel, np: NoiseParams, x: real, y: real, z: real, seed: int, oct: nat,
                             i: nat, j: nat, d: nat): real
    requires np.spreadX != 0.0 && np.spreadY != 0.0 && np.spreadZ != 0.0
  {
    Space3D.WalkCells(k, OctaveRequest(np, x, y, z, seed, oct))(i, j, d)
  }

  ghost function WalkSum3(k: Kernel, np: NoiseParams, x: real, y: real, z: real, seed: int, n: nat,
                          i: nat, j: nat, d: nat): real
    requires np.spreadX != 0.0 && np.spreadY != 0.0 && np.spreadZ != 0.0
  {
    if n == 0 then 0.0
    else
      WalkSum3(k, np, x, y, z, seed, n - 1, i, j, d) +
      Pow(np.persist, n - 1) * Flagged(np, WalkOctave3(k, np, x, y, z, seed + (n - 1), n - 1, i, j, d))
  }

  ghost function WalkSums3(k: Kernel, np: NoiseParams, x: real, y: real, z: real, seed: int, n: nat): Cells3
    requires np.spreadX != 0.0 && np.spreadY != 0.0 && np.spreadZ != 0.0
  {
    (i: nat, j: nat, d: nat) => WalkSum3(k, np, x, y, z, seed, n, i, j, d)
  }

  /** An octave of frequency `f` walks from `start` in steps of `step`, for points from `p` on. */
  predicate Scaled(p: real, spread: real, f: real, start: real, step: real) {
    spread != 0.0 && start == StartAt(p, spread, f) && step == StepOf(f, spread)
  }

  lemma ScaledSteps(p: real, spread: real, f: real, start: real, step: real, n: nat)
    requires Scaled(p, spread, f, start, step)
    ensures StartAt(p + n as real, spread, f) == start + Times(n, step)
  {
    StepsScale(p, n, spread, f);
  }

  lemma ScaledBy(p: real, spread: real, f: real, q: real)
    requires spread != 0.0 && q == p / spread
    ensures Scaled(p, spread, f, q * f, f / spread)
  {
  }

  lemma ValueCellAt2(k: Kernel, x: real, y: real, stepX: real, stepY: real, seed: int, eased: bool, i: nat, j: nat,
                     x1: real, y1: real)
    requires x1 == x + Times(i, stepX) && y1 == y + Times(j, stepY)
    ensures Plane2D.ValueCells(k, x, y, stepX, stepY, seed, eased)(i, j) == Value2D(k, x1, y1, seed, eased)
  {
    hide Value2D;
    Congruent2(k, x + Times(i, stepX), y + Times(j, stepY), x1, y1, seed, eased);
  }

  lemma ValueCellAt3(k: Kernel, x: real, y: real, z: real, stepX: real, stepY: real, stepZ: real, seed: int, eased: bool,
                     i: nat, j: nat, d: nat, x1: real, y1: real, z1: real)
    requires x1 == x + Times(i, stepX) && y1 == y + Times(j, stepY) && z1 == z + Times(d, stepZ)
    ensures Space3D.ValueCells(k, x, y, z, stepX, stepY, stepZ, seed, eased)(i, j, d) ==
            Value3D(k, x1, y1, z1, seed, eased)
  {
    hide Value3D, Times;
    Congruent3(k, x + Times(i, stepX), y + Times(j, stepY), z + Times(d, stepZ), x1, y1, z1, seed, eased);
  }

  /** A cell of an octave's value map is the octave's value at the cell's own point. */
  lemma ValueAt2(k: Kernel, np: NoiseParams, x: real, y: real, seed: int, f: real,
                 xf: real, yf: real, stepX: real, stepY: real, i: nat, j: nat)
    requires Scaled(x, np.spreadX, f, xf, stepX) && Scaled(y, np.spreadY, f, yf, stepY)
    ensures Plane2D.ValueCells(k, xf, yf, stepX, stepY, seed, np.defaults || np.eased)(i, j) ==
            Value2D(k, StartAt(x + i as real, np.spreadX, f), StartAt(y + j as real, np.spreadY, f), seed,
                    np.defaults || np.eased)
  {
    hide Value2D, Times, StartAt, StepOf;
    ScaledSteps(x, np.spreadX, f, xf, stepX, i);
    ScaledSteps(y, np.spreadY, f, yf, stepY, j);
    ValueCellAt2(k, xf, yf, stepX, stepY, seed, np.defaults || np.eased, i, j,
                 StartAt(x + i as real, np.spreadX, f), StartAt(y + j as real, np.spreadY, f));
  }

  /** A cell of an octave's value map is the octave's value at the cell's own point. */
  lemma ValueAt3(k: Kernel, np: NoiseParams, x: real, y: real, z: real, seed: int, f: real,
                 xf: real, yf: real, zf: real, stepX: real, stepY: real, stepZ: real, i: nat, j: nat, d: nat)
    requires Scaled(x, np.spreadX, f, xf, stepX) && Scaled(y, np.spreadY, f, yf, stepY) && Scaled(z, np.spreadZ, f, zf, stepZ)
    ensures Space3D.ValueCells(k, xf, yf, zf, stepX, stepY, stepZ, seed, np.eased)(i, j, d) ==
            Value3D(k, StartAt(x + i as real, np.spreadX, f), StartAt(y + j as real, np.spreadY, f),
                    StartAt(z + d as real, np.spreadZ, f), seed, np.eased)
  {
    hide Value3D, Times, StartAt, StepOf;
    ScaledSteps(x, np.spreadX, f, xf, stepX, i);
    ScaledSteps(y, np.spreadY, f, yf, stepY, j);
    ScaledSteps(z, np.spreadZ, f, zf, stepZ, d);
    ValueCellAt3(k, xf, yf, zf, stepX, stepY, stepZ, seed, np.eased, i, j, d,
                 StartAt(x + i as real, np.spreadX, f), StartAt(y + j as real, np.spreadY, f),
                 StartAt(z + d as real, np.spreadZ, f));
  }

  /** The walk of an octave is at the point of cell `i` when it gets there. */
  ghost predicate OctaveOn(np: NoiseParams, p: real, spread: real, oct: nat, i: nat)
    requires spread != 0.0
  {
    OnPoint(StartAt(p, spread, Pow(np.lacunarity, oct)), StepOf(Pow(np.lacunarity, oct), spread), i)
  }

  /** Then what it yields is the octave's noise there. */
  lemma OctaveIsNoise2(k: Kernel, np: NoiseParams, x: real, y: real, seed: int, oct: nat, i: nat, j: nat)
    requires np.spreadX != 0.0 && np.spreadY != 0.0
    requires OctaveOn(np, x, np.spreadX, oct, i) && OctaveOn(np, y, np.spreadY, oct, j)
    ensures var f := Pow(np.lacunarity, oct);
            WalkOctave2(k, np, x, y, seed, oct, i, j) ==
            Value2D(k, StartAt(x + i as real, np.spreadX, f), StartAt(y + j as real, np.spreadY, f), seed,
                    np.defaults || np.eased)
  {
    hide Value2D, Pow, OnPoint, StartAt, StepOf, Plane2D.WalkCells, Plane2D.ValueCells;
    var f := Pow(np.lacunarity, oct);
    var xf, yf := StartAt(x, np.spreadX, f), StartAt(y, np.spreadY, f);
    var stepX, stepY := StepOf(f, np.spreadX), StepOf(f, np.spreadY);
    Plane2D.WalkedIsNoise(k, xf, yf, stepX, stepY, seed, np.defaults || np.eased, i, j);
    ValueAt2(k, np, x, y, seed, f, xf, yf, stepX, stepY, i, j);
  }

  /** If that is so for all octaves, they add up to the octaves of the formula. */
  lemma {:induction false} WalkSumIs2(k: Kernel, np: NoiseParams, x: real, y: real, seed: int, n: nat, i: nat, j: nat)
    requires np.spreadX != 0.0 && np.spreadY != 0.0
    requires forall oct :: 0 <= oct < n ==> OctaveOn(np, x, np.spreadX, oct, i) && OctaveOn(np, y, np.spreadY, oct, j)
    ensures WalkSum2(k, np, x, y, seed, n, i, j) ==
            Octaves2D(k, np, (x + i as real) / np.spreadX, (y + j as real) / np.spreadY, seed, n)
  {
    hide Flagged, Value2D, WalkOctave2, OctaveOn, Octave2D, Pow;
    if n > 0 {
      WalkSumIs2(k, np, x, y, seed, n - 1, i, j);
      OctaveIsNoise2(k, np, x, y, seed + (n - 1), n - 1, i, j);
      var f, g := Pow(np.lacunarity, n - 1), Pow(np.persist, n - 1);
      var px, py := (x + i as real) / np.spreadX, (y + j as real) / np.spreadY;
      OctaveIs2(k, np, px, py, seed + (n - 1), f, g,
                StartAt(x + i as real, np.spreadX, f), StartAt(y + j as real, np.spreadY, f));
      OctavesStep2(k, np, px, py, seed, n - 1, f, g);
    }
  }

  lemma WalkSumStep2(k: Kernel, np: NoiseParams, x: real, y: real, seed: int, oct: nat, f: real, g: real,
                     xf: real, yf: real, stepX: real, stepY: real, i: nat, j: nat)
    requires Scaled(x, np.spreadX, f, xf, stepX) && Scaled(y, np.spreadY, f, yf, stepY)
    requires f == Pow(np.lacunarity, oct) && g == Pow(np.persist, oct)
    ensures var value := Plane2D.WalkCells(k, xf, yf, stepX, stepY, seed + oct, np.defaults || np.eased)(i, j);
            WalkSum2(k, np, x, y, seed, oct + 1, i, j) ==
            WalkSum2(k, np, x, y, seed, oct, i, j) + g * Flagged(np, value)
  {
    hide Plane2D.WalkCells, Flagged, Pow, StartAt, StepOf;
  }

  /** Adding one octave's values cell by cell gives the next sums. */
  lemma AddOctave2(k: Kernel, np: NoiseParams, sx: nat, sy: nat, x: real, y: real, seed: int, oct: nat, f: real, g: real,
                   xf: real, yf: real, stepX: real, stepY: real,
                   before: seq<real>, values: seq<real>, after: seq<real>)
    requires Scaled(x, np.spreadX, f, xf, stepX) && Scaled(y, np.spreadY, f, yf, stepY)
    requires f == Pow(np.lacunarity, oct) && g == Pow(np.persist, oct)
    requires |before| == |after| == |values| && Rows(sx, sy) <= |after|
    requires forall p :: 0 <= p < Rows(sx, sy) ==> after[p] == before[p] + g * Flagged(np, values[p])
    requires values[..Rows(sx, sy)] ==
             Flat2(sx, sy, Plane2D.WalkCells(k, xf, yf, stepX, stepY, seed + oct, np.defaults || np.eased))
    requires Grid2(before, sx, sy, WalkSums2(k, np, x, y, seed, oct))
    ensures Grid2(after, sx, sy, WalkSums2(k, np, x, y, seed, oct + 1))
  {
    hide WalkSum2, Flagged, Pow, Rows, Flat2, Plane2D.WalkCells;
    var cells := Plane2D.WalkCells(k, xf, yf, stepX, stepY, seed + oct, np.defaults || np.eased);
    forall i: nat, j: nat | i < sx && j < sy
      ensures Cell2(after, sx, i, j) == WalkSums2(k, np, x, y, seed, oct + 1)(i, j)
    {
      var p := Rows(sx, j) + i;
      Flat2At(sx, sy, cells, i, j);
      assert values[..Rows(sx, sy)][p] == values[p];
      assert Cell2(before, sx, i, j) == WalkSums2(k, np, x, y, seed, oct)(i, j);
      WalkSumStep2(k, np, x, y, seed, oct, f, g, xf, yf, stepX, stepY, i, j);
    }
  }

  lemma OctaveIsNoise3(k: Kernel, np: NoiseParams, x: real, y: real, z: real, seed: int, oct: nat, i: nat, j: nat, d: nat)
    requires np.spreadX != 0.0 && np.spreadY != 0.0 && np.spreadZ != 0.0
    requires OctaveOn(np, x, np.spreadX, oct, i) && OctaveOn(np, y, np.spreadY, oct, j) && OctaveOn(np, z, np.spreadZ, oct, d)
    ensures var f := Pow(np.lacunarity, oct);
            WalkOctave3(k, np, x, y, z, seed, oct, i, j, d) ==
            Value3D(k, StartAt(x + i as real, np.spreadX, f), StartAt(y + j as real, np.spreadY, f),
                    StartAt(z + d as real, np.spreadZ, f), seed, np.eased)
  {
    hide Value3D, Pow, OnPoint, StartAt, StepOf, Space3D.WalkCells, Space3D.ValueCells;
    var f, q := Pow(np.lacunarity, oct), OctaveRequest(np, x, y, z, seed, oct);
    Space3D.WalkedIsNoise(k, q, i, j, d);
    ValueAt3(k, np, x, y, z, seed, f, q.x, q.y, q.z, q.stepX, q.stepY, q.stepZ, i, j, d);
  }

  lemma {:induction false} WalkSumIs3(k: Kernel, np: NoiseParams, x: real, y: real, z: real, seed: int, n: nat,
                                      i: nat, j: nat, d: nat)
    requires np.spreadX != 0.0 && np.spreadY != 0.0 && np.spreadZ != 0.0
    requires forall oct :: 0 <= oct < n ==>
               OctaveOn(np, x, np.spreadX, oct, i) && OctaveOn(np, y, np.spreadY, oct, j) && OctaveOn(np, z, np.spreadZ, oct, d)
    ensures WalkSum3(k, np, x, y, z, seed, n, i, j, d) ==
            Octaves3D(k, np, (x + i as real) / np.spreadX, (y + j as real) / np.spreadY, (z + d as real) / np.spreadZ, seed, n)
  {
    hide Flagged, Value3D, WalkOctave3, OctaveOn, Octave3D, Pow;
    if n > 0 {
      WalkSumIs3(k, np, x, y, z, seed, n - 1, i, j, d);
      OctaveIsNoise3(k, np, x, y, z, seed + (n - 1), n - 1, i, j, d);
      var f, g := Pow(np.lacunarity, n - 1), Pow(np.persist, n - 1);
      var px, py, pz := (x + i as real) / np.spreadX, (y + j as real) / np.spreadY, (z + d as real) / np.spreadZ;
      OctaveIs3(k, np, px, py, pz, seed + (n - 1), f, g, StartAt(x + i as real, np.spreadX, f),
                StartAt(y + j as real, np.spreadY, f), StartAt(z + d as real, np.spreadZ, f));
      OctavesStep3(k, np, px, py, pz, seed, n - 1, f, g);
    }
  }

  lemma WalkSumStep3(k: Kernel, np: NoiseParams, x: real, y: real, z: real, seed: int, oct: nat, f: real, g: real,
                     q: Space3D.Request, i: nat, j: nat, d: nat)
    requires np.spreadX != 0.0 && np.spreadY != 0.0 && np.spreadZ != 0.0
    requires g == Pow(np.persist, oct) && q == OctaveRequest(np, x, y, z, seed + oct, oct)
    ensures WalkSum3(k, np, x, y, z, seed, oct + 1, i, j, d) ==
            WalkSum3(k, np, x, y, z, seed, oct, i, j, d) + g * Flagged(np, Space3D.WalkCells(k, q)(i, j, d))
  {
    hide Space3D.WalkCells, Flagged, Pow;
  }

  /** Adding one octave's values cell by cell gives the next sums. */
  lemma AddOctave3(k: Kernel, np: NoiseParams, sx: nat, sy: nat, sz: nat, x: real, y: real, z: real, seed: int, oct: nat,
                   f: real, g: real, q: Space3D.Request, before: seq<real>, values: seq<real>, after: seq<real>)
    requires np.spreadX != 0.0 && np.spreadY != 0.0 && np.spreadZ != 0.0
    requires g == Pow(np.persist, oct) && q == OctaveRequest(np, x, y, z, seed + oct, oct)
    requires |before| == |after| == |values| && Rows(Rows(sx, sy), sz) <= |after|
    requires forall p :: 0 <= p < Rows(Rows(sx, sy), sz) ==> after[p] == before[p] + g * Flagged(np, values[p])
    requires values[..Rows(Rows(sx, sy), sz)] == Flat3(sx, sy, sz, Space3D.WalkCells(k, q))
    requires Grid3(before, sx, sy, sz, WalkSums3(k, np, x, y, z, seed, oct))
    ensures Grid3(after, sx, sy, sz, WalkSums3(k, np, x, y, z, seed, oct + 1))
  {
    hide WalkSum3, Flagged, Pow, Rows, Flat3, Space3D.WalkCells, OctaveRequest;
    var cells := Space3D.WalkCells(k, q);
    forall i: nat, j: nat, d: nat | i < sx && j < sy && d < sz
      ensures Cell3(after, sx, sy, i, j, d) == WalkSums3(k, np, x, y, z, seed, oct + 1)(i, j, d)
    {
      var p := Rows(Rows(sx, sy), d) + Rows(sx, j) + i;
      Flat3At(sx, sy, sz, cells, i, j, d);
      assert values[..Rows(Rows(sx, sy), sz)][p] == values[p];
      assert Cell3(before, sx, sy, i, j, d) == WalkSums3(k, np, x, y, z, seed, oct)(i, j, d);
      WalkSumStep3(k, np, x, y, z, seed, oct, f, g, q, i, j, d);
    }
  }

  lemma NoOctaves2(k: Kernel, np: NoiseParams, sx: nat, sy: nat, x: real, y: real, seed: int, s: seq<real>)
    requires np.spreadX != 0.0 && np.spreadY != 0.0 && Rows(sx, sy) <= |s|
    requires forall p :: 0 <= p < Rows(sx, sy) ==> s[p] == 0.0
    ensures Grid2(s, sx, sy, WalkSums2(k, np, x, y, seed, 0))
  {
    forall i: nat, j: nat | i < sx && j < sy
      ensures Cell2(s, sx, i, j) == 0.0
    {
      RowsGap(sx, j, sy);
    }
  }

  lemma NoOctaves3(k: Kernel, np: NoiseParams, sx: nat, sy: nat, sz: nat, x: real, y: real, z: real, seed: int, s: seq<real>)
    requires np.spreadX != 0.0 && np.spreadY != 0.0 && np.spreadZ != 0.0 && Rows(Rows(sx, sy), sz) <= |s|
    requires forall p :: 0 <= p < Rows(Rows(sx, sy), sz) ==> s[p] == 0.0
    ensures Grid3(s, sx, sy, sz, WalkSums3(k, np, x, y, z, seed, 0))
  {
    forall i: nat, j: nat, d: nat | i < sx && j < sy && d < sz
      ensures Cell3(s, sx, sy, i, j, d) == 0.0
    {
      RowsGap(sx, j, sy);
      RowsGap(Rows(sx, sy), d, sz);
    }
  }

  lemma Finishes2(np: NoiseParams, sx: nat, sy: nat, sums: seq<real>, s: seq<real>, f: Cells2)
    requires Rows(sx, sy) <= |sums| == |s| && Grid2(sums, sx, sy, f)
    requires forall p :: 0 <= p < Rows(sx, sy) ==> s[p] == Finish(np, sums[p])
    ensures Grid2(s, sx, sy, Finished2(np, f))
  {
    hide Finish;
    forall i: nat, j: nat | i < sx && j < sy
      ensures Cell2(s, sx, i, j) == Finish(np, f(i, j))
    {
      RowsGap(sx, j, sy);
      assert Cell2(sums, sx, i, j) == f(i, j);
    }
  }

  lemma Finishes3(np: NoiseParams, sx: nat, sy: nat, sz: nat, sums: seq<real>, s: seq<real>, f: Cells3)
    requires Rows(Rows(sx, sy), sz) <= |sums| == |s| && Grid3(sums, sx, sy, sz, f)
    requires forall p :: 0 <= p < Rows(Rows(sx, sy), sz) ==> s[p] == Finish(np, sums[p])
    ensures Grid3(s, sx, sy, sz, Finished3(np, f))
  {
    hide Finish;
    forall i: nat, j: nat, d: nat | i < sx && j < sy && d < sz
      ensures Cell3(s, sx, sy, i, j, d) == Finish(np, f(i, j, d))
    {
      RowsGap(sx, j, sy);
      RowsGap(Rows(sx, sy), d, sz);
      assert Cell3(sums, sx, sy, i, j, d) == f(i, j, d);
    }
  }

  /** Along one axis, an octave needs the points counted for it. */
  lemma AxisWalks(np: NoiseParams, size: nat, spread: real, oct: nat, f: real, p: real, start: real, step: real)
    requires np.lacunarity > 0.0 && spread > 0.0 && oct < np.octaves
    requires f == Pow(np.lacunarity, oct) && Scaled(p, spread, f, start, step)
    ensures 0.0 <= step && Points(start, size, step) == OctavePoints(np, p, size, spread, oct)
  {
    assert Frequency(np, oct) == f;
    QuotientPositive(f, spread);
    assert Place(p, f, spread) == start;
  }

  /** Every octave of a plane map that fits stays inside the buffers. */
  lemma Fits2(np: NoiseParams, sx: nat, sy: nat, sz: nat, oct: nat, f: real, x: real, y: real,
              xf: real, yf: real, stepX: real, stepY: real)
    requires Accepted(np, sx, sy, sz) && np.lacunarity > 0.0 && oct < np.octaves && f == Pow(np.lacunarity, oct)
    requires Scaled(x, np.spreadX, f, xf, stepX) && Scaled(y, np.spreadY, f, yf, stepY)
    requires PlaneFits(np, sx, sy, sz, x, y)
    ensures 0.0 <= stepX && 0.0 <= stepY
    ensures Rows(Points(xf, sx, stepX), Points(yf, sy, stepY)) <= BufferSize(np, sx, sy, sz)
  {
    SpreadPositive(np, sx, np.spreadX);
    SpreadPositive(np, sy, np.spreadY);
    AxisWalks(np, sx, np.spreadX, oct, f, x, xf, stepX);
    AxisWalks(np, sy, np.spreadY, oct, f, y, yf, stepY);
    assert Rows(OctavePoints(np, x, sx, np.spreadX, oct), OctavePoints(np, y, sy, np.spreadY, oct))
           <= BufferSize(np, sx, sy, sz);
  }

  /** The same in space. */
  lemma Fits3(np: NoiseParams, sx: nat, sy: nat, sz: nat, oct: nat, f: real, x: real, y: real, z: real,
              xf: real, yf: real, zf: real, stepX: real, stepY: real, stepZ: real)
    requires Accepted(np, sx, sy, sz) && np.lacunarity > 0.0 && oct < np.octaves && f == Pow(np.lacunarity, oct)
    requires Scaled(x, np.spreadX, f, xf, stepX) && Scaled(y, np.spreadY, f, yf, stepY) && Scaled(z, np.spreadZ, f, zf, stepZ)
    requires VolumeFits(np, sx, sy, sz, x, y, z)
    ensures 0.0 <= stepX && 0.0 <= stepY && 0.0 <= stepZ
    ensures Rows(Rows(Points(xf, sx, stepX), Points(yf, sy, stepY)),
                 Points(zf, sz, stepZ)) <= BufferSize(np, sx, sy, sz)
  {
    SpreadPositive(np, sx, np.spreadX);
    SpreadPositive(np, sy, np.spreadY);
    SpreadPositive(np, sz, np.spreadZ);
    AxisWalks(np, sx, np.spreadX, oct, f, x, xf, stepX);
    AxisWalks(np, sy, np.spreadY, oct, f, y, yf, stepY);
    AxisWalks(np, sz, np.spreadZ, oct, f, z, zf, stepZ);
    assert Rows(Rows(OctavePoints(np, x, sx, np.spreadX, oct), OctavePoints(np, y, sy, np.spreadY, oct)),
                OctavePoints(np, z, sz, np.spreadZ, oct)) <= BufferSize(np, sx, sy, sz);
  }

  lemma OneRow(w: nat, n: nat)
    requires n >= 1
    ensures w <= Rows(w, n)
  {
    RowsMonotone(w, 1, w, n);
    assert Rows(w, 1) == w;
  }

  lemma StepsOn(np: NoiseParams, p: real, size: nat, spread: real, oct: nat, i: nat)
    requires np.lacunarity > 0.0 && spread > 0.0 && AxisSteps(np, size, spread) && oct < np.octaves && i < size
    ensures OctaveOn(np, p, spread, oct, i)
  {
    hide OnPoint, StartAt, Frequency;
    FrequencyIs(np, oct);
    var f := Frequency(np, oct);
    QuotientPositive(f, spread);
    SmallStepsOnPoint(StartAt(p, spread, f), StepOf(f, spread), i);
  }

  lemma FrequencyIs(np: NoiseParams, oct: nat)
    requires np.lacunarity > 0.0
    ensures Frequency(np, oct) == Pow(np.lacunarity, oct)
  {
  }

  /** With steps of no more than a lattice cell, what is added up for a cell are the octaves of its own point,
      and finished it is the fractal formula there if finishing changes nothing it should not. */
  lemma CellIsFractal2(k: Kernel, np: NoiseParams, sx: nat, sy: nat, x: real, y: real, seed: int, i: nat, j: nat)
    requires np.lacunarity > 0.0 && np.spreadX > 0.0 && np.spreadY > 0.0 && i < sx && j < sy
    requires AxisSteps(np, sx, np.spreadX) && AxisSteps(np, sy, np.spreadY)
    ensures WalkSums2(k, np, x, y, seed + np.seed, np.octaves)(i, j) == Sums2(k, np, x, y, seed + np.seed, np.octaves)(i, j)
    ensures ExactFinish(np) ==>
              Finish(np, Sums2(k, np, x, y, seed + np.seed, np.octaves)(i, j)) ==
              Fractal2D(k, np, x + i as real, y + j as real, seed)
  {
    hide Octaves2D, WalkSum2, AxisSteps, OctaveOn;
    FinishIsExact(np);
    forall oct | 0 <= oct < np.octaves
      ensures OctaveOn(np, x, np.spreadX, oct, i) && OctaveOn(np, y, np.spreadY, oct, j)
    {
      StepsOn(np, x, sx, np.spreadX, oct, i);
      StepsOn(np, y, sy, np.spreadY, oct, j);
    }
    WalkSumIs2(k, np, x, y, seed + np.seed, np.octaves, i, j);
  }

  lemma CellIsFractal3(k: Kernel, np: NoiseParams, sx: nat, sy: nat, sz: nat, x: real, y: real, z: real, seed: int,
                       i: nat, j: nat, d: nat)
    requires np.lacunarity > 0.0 && np.spreadX > 0.0 && np.spreadY > 0.0 && np.spreadZ > 0.0 && i < sx && j < sy && d < sz
    requires AxisSteps(np, sx, np.spreadX) && AxisSteps(np, sy, np.spreadY) && AxisSteps(np, sz, np.spreadZ)
    ensures WalkSums3(k, np, x, y, z, seed + np.seed, np.octaves)(i, j, d) ==
            Sums3(k, np, x, y, z, seed + np.seed, np.octaves)(i, j, d)
    ensures ExactFinish(np) ==>
              Finish(np, Sums3(k, np, x, y, z, seed + np.seed, np.octaves)(i, j, d)) ==
              Fractal3D(k, np, x + i as real, y + j as real, z + d as real, seed)
  {
    hide Octaves3D, WalkSum3, AxisSteps, OctaveOn;
    FinishIsExact(np);
    forall oct | 0 <= oct < np.octaves
      ensures OctaveOn(np, x, np.spreadX, oct, i) && OctaveOn(np, y, np.spreadY, oct, j) && OctaveOn(np, z, np.spreadZ, oct, d)
    {
      StepsOn(np, x, sx, np.spreadX, oct, i);
      StepsOn(np, y, sy, np.spreadY, oct, j);
      StepsOn(np, z, sz, np.spreadZ, oct, d);
    }
    WalkSumIs3(k, np, x, y, z, seed + np.seed, np.octaves, i, j, d);
  }

  lemma MapIsNoise2(k: Kernel, np: NoiseParams, sx: nat, sy: nat, x: real, y: real, seed: int, s: seq<real>)
    requires np.lacunarity > 0.0 && np.spreadX > 0.0 && np.spreadY > 0.0
    requires AxisSteps(np, sx, np.spreadX) && AxisSteps(np, sy, np.spreadY)
    requires Grid2(s, sx, sy, Finished2(np, WalkSums2(k, np, x, y, seed + np.seed, np.octaves)))
    ensures Grid2(s, sx, sy, Finished2(np, Sums2(k, np, x, y, seed + np.seed, np.octaves)))
    ensures ExactFinish(np) ==> Grid2(s, sx, sy, Fractals2(k, np, x, y, seed))
  {
    hide Finish, Sums2, WalkSums2, Cell2, Fractal2D, ExactFinish, AxisSteps;
    forall i: nat, j: nat | i < sx && j < sy
      ensures Cell2(s, sx, i, j) == Finish(np, Sums2(k, np, x, y, seed + np.seed, np.octaves)(i, j))
      ensures ExactFinish(np) ==> Cell2(s, sx, i, j) == Fractal2D(k, np, x + i as real, y + j as real, seed)
    {
      CellIsFractal2(k, np, sx, sy, x, y, seed, i, j);
    }
  }

  lemma MapIsNoise3(k: Kernel, np: NoiseParams, sx: nat, sy: nat, sz: nat, x: real, y: real, z: real, seed: int, s: seq<real>)
    requires np.lacunarity > 0.0 && np.spreadX > 0.0 && np.spreadY > 0.0 && np.spreadZ > 0.0
    requires AxisSteps(np, sx, np.spreadX) && AxisSteps(np, sy, np.spreadY) && AxisSteps(np, sz, np.spreadZ)
    requires Grid3(s, sx, sy, sz, Finished3(np, WalkSums3(k, np, x, y, z, seed + np.seed, np.octaves)))
    ensures Grid3(s, sx, sy, sz, Finished3(np, Sums3(k, np, x, y, z, seed + np.seed, np.octaves)))
    ensures ExactFinish(np) ==> Grid3(s, sx, sy, sz, Fractals3(k, np, x, y, z, seed))
  {
    hide Finish, Sums3, WalkSums3, Cell3, Fractal3D, ExactFinish, AxisSteps;
    forall i: nat, j: nat, d: nat | i < sx && j < sy && d < sz
      ensures Cell3(s, sx, sy, i, j, d) == Finish(np, Sums3(k, np, x, y, z, seed + np.seed, np.octaves)(i, j, d))
      ensures ExactFinish(np) ==>
                Cell3(s, sx, sy, i, j, d) == Fractal3D(k, np, x + i as real, y + j as real, z + d as real, seed)
    {
      CellIsFractal3(k, np, sx, sy, sz, x, y, z, seed, i, j, d);
    }
  }

  function AtLeastOne(n: nat): nat { if n < 1 then 1 else n }

  class Noise {
    const k: Kernel
    const np: NoiseParams
    const seed: int
    const sx: nat
    const sy: nat
    const sz: nat
    const noiseBuf: array<real>
    const valueBuf: array<real>
    const result: array<real>

    ghost predicate Valid() {
      && sx >= 1 && sy >= 1 && sz >= 1 && Accepted(np, sx, sy, sz)
      && noiseBuf != valueBuf && noiseBuf != result && valueBuf != result
      && noiseBuf.Length == BufferSize(np, sx, sy, sz)
      && valueBuf.Length == result.Length == Rows(Rows(sx, sy), sz)
    }

    /** The map stays inside its buffers from (x, y) on; by GrowingMaps everywhere if lacunarity is at least 1. */
    ghost predicate PlaneWalks(x: real, y: real)
      requires Valid()
    {
      np.lacunarity > 0.0 && PlaneFits(np, sx, sy, sz, x, y)
    }

    ghost predicate VolumeWalks(x: real, y: real, z: real)
      requires Valid()
    {
      np.lacunarity > 0.0 && VolumeFits(np, sx, sy, sz, x, y, z)
    }

    /** No octave steps along an axis by more than a lattice cell. */
    ghost predicate PlaneSteps()
      requires Valid() && np.lacunarity > 0.0
    {
      AxisSteps(np, sx, np.spreadX) && AxisSteps(np, sy, np.spreadY)
    }

    ghost predicate VolumeSteps()
      requires Valid() && np.lacunarity > 0.0
    {
      PlaneSteps() && AxisSteps(np, sz, np.spreadZ)
    }

    constructor (k: Kernel, np: NoiseParams, seed: int, sx: nat, sy: nat, sz: nat)
      requires Accepted(np, AtLeastOne(sx), AtLeastOne(sy), AtLeastOne(sz))
      ensures Valid() && fresh(noiseBuf) && fresh(valueBuf) && fresh(result)
      ensures this.k == k && this.np == np && this.seed == seed
      ensures this.sx == (if sx == 0 then 1 else sx) && this.sy == (if sy == 0 then 1 else sy)
      ensures this.sz == if sz == 0 then 1 else sz
    {
      var w, h, d := AtLeastOne(sx), AtLeastOne(sy), AtLeastOne(sz);
      this.k, this.np, this.seed, this.sx, this.sy, this.sz := k, np, seed, w, h, d;
      noiseBuf := new real[BufferSize(np, w, h, d)];
      valueBuf := new real[Rows(Rows(w, h), d)];
      result := new real[Rows(Rows(w, h), d)];
    }

    /** updateResults, without a persistence map. */
    method UpdateResults(g: real, size: nat)
      requires valueBuf != result && size <= result.Length == valueBuf.Length
      modifies result
      ensures forall p :: 0 <= p < size ==> result[p] == old(result[p]) + g * Flagged(np, valueBuf[p])
    {
      if np.absvalue {
        for i := 0 to size
          invariant forall p :: 0 <= p < i ==> result[p] == old(result[p]) + g * Flagged(np, valueBuf[p])
          invariant forall p :: i <= p < result.Length ==> result[p] == old(result[p])
        {
          result[i] := result[i] + g * Abs(valueBuf[i]);
        }
      } else {
        for i := 0 to size
          invariant forall p :: 0 <= p < i ==> result[p] == old(result[p]) + g * Flagged(np, valueBuf[p])
          invariant forall p :: i <= p < result.Length ==> result[p] == old(result[p])
        {
          result[i] := result[i] + g * valueBuf[i];
        }
      }
    }

    method Clear(size: nat)
      requires size <= result.Length
      modifies result
      ensures forall p :: 0 <= p < size ==> result[p] == 0.0
    {
      for i := 0 to size
        invariant forall p :: 0 <= p < i ==> result[p] == 0.0
      {
        result[i] := 0.0;
      }
    }

    method Rescale(size: nat)
      requires size <= result.Length
      modifies result
      ensures forall p :: 0 <= p < size ==> result[p] == Finish(np, old(result[p]))
    {
      if Rescaled(np) {
        for i := 0 to size
          invariant forall p :: 0 <= p < i ==> result[p] == Finish(np, old(result[p]))
          invariant forall p :: i <= p < result.Length ==> result[p] == old(result[p])
        {
          result[i] := result[i] * np.scale + np.offset;
        }
      }
    }

    /** One octave of noiseMap2D. */
    method AddPlane(ghost x: real, ghost y: real, oct: nat, f: real, g: real, px: real, py: real, size: nat)
      requires Valid() && oct < np.octaves && size == Rows(sx, sy) <= result.Length && PlaneWalks(x, y)
      requires f == Pow(np.lacunarity, oct) && g == Pow(np.persist, oct)
      requires px == x / np.spreadX && py == y / np.spreadY
      requires Grid2(result[..], sx, sy, WalkSums2(k, np, x, y, seed + np.seed, oct))
      modifies noiseBuf, valueBuf, result
      ensures Grid2(result[..], sx, sy, WalkSums2(k, np, x, y, seed + np.seed, oct + 1))
    {
      hide Plane2D.WalkCells, Points, BufferSize, Flagged, WalkSums2, Grid2, Pow;
      var xf, yf, stepX, stepY := px * f, py * f, f / np.spreadX, f / np.spreadY;
      ScaledBy(x, np.spreadX, f, px);
      ScaledBy(y, np.spreadY, f, py);
      Fits2(np, sx, sy, sz, oct, f, x, y, xf, yf, stepX, stepY);
      Plane2D.ValueMap(k, noiseBuf, valueBuf, sx, sy, xf, yf, stepX, stepY, seed + np.seed + oct,
                       np.defaults || np.eased);
      ghost var before := result[..];
      UpdateResults(g, size);
      AddOctave2(k, np, sx, sy, x, y, seed + np.seed, oct, f, g, xf, yf, stepX, stepY,
                 before, valueBuf[..], result[..]);
    }

    /** noiseMap2D, without a persistence map, wherever its octaves stay in the buffer: what their walks add up to,
        which is noise at each cell's point if no axis steps by more than a lattice cell. */
    method Map2D(x: real, y: real)
      requires Valid() && PlaneWalks(x, y)
      modifies noiseBuf, valueBuf, result
      ensures Grid2(result[..], sx, sy, Finished2(np, WalkSums2(k, np, x, y, seed + np.seed, np.octaves)))
      ensures PlaneSteps() ==>
                && Grid2(result[..], sx, sy, Finished2(np, Sums2(k, np, x, y, seed + np.seed, np.octaves)))
                && (ExactFinish(np) ==> Grid2(result[..], sx, sy, Fractals2(k, np, x, y, seed)))
    {
      hide Finish, BufferSize, Sums2, WalkSums2, Grid2, Finished2, Fractals2, ExactFinish, AxisSteps, PlaneFits;
      var f, g := 1.0, 1.0;
      var px, py := x / np.spreadX, y / np.spreadY;
      RowsIsProduct(sx, sy);
      OneRow(Rows(sx, sy), sz);
      var size := sx * sy;
      Clear(size);
      NoOctaves2(k, np, sx, sy, x, y, seed + np.seed, result[..]);
      for oct := 0 to np.octaves
        invariant f == Pow(np.lacunarity, oct) && g == Pow(np.persist, oct)
        invariant Grid2(result[..], sx, sy, WalkSums2(k, np, x, y, seed + np.seed, oct))
      {
        AddPlane(x, y, oct, f, g, px, py, size);
        f := f * np.lacunarity;
        g := g * np.persist;
      }
      ghost var sums := result[..];
      Rescale(size);
      Finishes2(np, sx, sy, sums, result[..], WalkSums2(k, np, x, y, seed + np.seed, np.octaves));
      if PlaneSteps() {
        SpreadPositive(np, sx, np.spreadX);
        SpreadPositive(np, sy, np.spreadY);
        MapIsNoise2(k, np, sx, sy, x, y, seed, result[..]);
      }
    }

    /** One octave of noiseMap3D. */
    method AddVolume(ghost x: real, ghost y: real, ghost z: real, oct: nat, f: real, g: real,
                     px: real, py: real, pz: real, size: nat)
      requires Valid() && oct < np.octaves && size == Rows(Rows(sx, sy), sz) <= result.Length && VolumeWalks(x, y, z)
      requires f == Pow(np.lacunarity, oct) && g == Pow(np.persist, oct)
      requires px == x / np.spreadX && py == y / np.spreadY && pz == z / np.spreadZ
      requires Grid3(result[..], sx, sy, sz, WalkSums3(k, np, x, y, z, seed + np.seed, oct))
      modifies noiseBuf, valueBuf, result
      ensures Grid3(result[..], sx, sy, sz, WalkSums3(k, np, x, y, z, seed + np.seed, oct + 1))
    {
      hide Space3D.WalkCells, Points, BufferSize, Flagged, WalkSums3, Grid3, Pow, Rows;
      var q := Space3D.Request(px * f, py * f, pz * f, f / np.spreadX, f / np.spreadY, f / np.spreadZ,
                               seed + np.seed + oct, np.eased);
      ScaledBy(x, np.spreadX, f, px);
      ScaledBy(y, np.spreadY, f, py);
      ScaledBy(z, np.spreadZ, f, pz);
      Fits3(np, sx, sy, sz, oct, f, x, y, z, q.x, q.y, q.z, q.stepX, q.stepY, q.stepZ);
      Space3D.ValueMap(k, noiseBuf, valueBuf, sx, sy, sz, q);
      ghost var before := result[..];
      UpdateResults(g, size);
      AddOctave3(k, np, sx, sy, sz, x, y, z, seed + np.seed, oct, f, g, q, before, valueBuf[..], result[..]);
    }

    /** noiseMap3D, likewise. */
    method Map3D(x: real, y: real, z: real)
      requires Valid() && VolumeWalks(x, y, z)
      modifies noiseBuf, valueBuf, result
      ensures Grid3(result[..], sx, sy, sz, Finished3(np, WalkSums3(k, np, x, y, z, seed + np.seed, np.octaves)))
      ensures VolumeSteps() ==>
                && Grid3(result[..], sx, sy, sz, Finished3(np, Sums3(k, np, x, y, z, seed + np.seed, np.octaves)))
                && (ExactFinish(np) ==> Grid3(result[..], sx, sy, sz, Fractals3(k, np, x, y, z, seed)))
    {
      hide Finish, BufferSize, Sums3, WalkSums3, Grid3, Finished3, Fractals3, ExactFinish, AxisSteps, VolumeFits;
      var f, g := 1.0, 1.0;
      var px, py, pz := x / np.spreadX, y / np.spreadY, z / np.spreadZ;
      RowsIsProduct(sx, sy);
      RowsIsProduct(Rows(sx, sy), sz);
      var size := sz * (sy * sx);
      Clear(size);
      NoOctaves3(k, np, sx, sy, sz, x, y, z, seed + np.seed, result[..]);
      for oct := 0 to np.octaves
        invariant f == Pow(np.lacunarity, oct) && g == Pow(np.persist, oct)
        invariant Grid3(result[..], sx, sy, sz, WalkSums3(k, np, x, y, z, seed + np.seed, oct))
      {
        AddVolume(x, y, z, oct, f, g, px, py, pz, size);
        f := f * np.lacunarity;
        g := g * np.persist;
      }
      ghost var sums := result[..];
      Rescale(size);
      Finishes3(np, sx, sy, sz, sums, result[..], WalkSums3(k, np, x, y, z, seed + np.seed, np.octaves));
      if VolumeSteps() {
        SpreadPositive(np, sx, np.spreadX);
        SpreadPositive(np, sy, np.spreadY);
        SpreadPositive(np, sz, np.spreadZ);
        MapIsNoise3(k, np, sx, sy, sz, x, y, z, seed, result[..]);
      }
    }
  }

  /** A noise map, or null for parameters that are refused. */
  method Create(k: Kernel, np: NoiseParams, seed: int, sx: nat, sy: nat, sz: nat) returns (noise: Noise?)
    ensures noise == null <==> !Accepted(np, AtLeastOne(sx), AtLeastOne(sy), AtLeastOne(sz))
    ensures noise != null ==>
              && fresh(noise) && noise.Valid() && noise.k == k && noise.np == np && noise.seed == seed
              && noise.sx == (if sx == 0 then 1 else sx) && noise.sy == (if sy == 0 then 1 else sy)
              && noise.sz == if sz == 0 then 1 else sz
  {
    var size := ResizeNoiseBuf(np, AtLeastOne(sx), AtLeastOne(sy), AtLeastOne(sz));
    if size.None? {
      return null;
    }
    noise := new Noise(k, np, seed, sx, sy, sz);
  }
}
