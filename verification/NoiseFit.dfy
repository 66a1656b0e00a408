/** When the lattice of every octave of a noise map stays inside its buffer. */
module NoiseFit {
  import opened Flat
  import opened NoiseValue
  import opened NoiseWalk
  import opened NoiseBuffers

  /** Parameters that are accepted and shrink or grow the octaves without changing their sign. */
  predicate Sane(np: NoiseParams, sx: nat, sy: nat, sz: nat) {
    np.lacunarity > 0.0 && np.octaves > 0 && Accepted(np, sx, sy, sz)
  }

  lemma {:induction false} PowPositive(b: real, n: nat)
    requires b > 0.0
    ensures Pow(b, n) > 0.0
  {
    if n > 0 {
      PowPositive(b, n - 1);
    }
  }

  lemma {:induction false} PowShrinks(b: real, n: nat)
    requires 0.0 < b <= 1.0
    ensures 0.0 < Pow(b, n) <= 1.0
  {
    if n > 0 {
      PowShrinks(b, n - 1);
      var p := Pow(b, n - 1);
      assert p * b > 0.0 && p * (1.0 - b) >= 0.0;
    }
  }

  function Frequency(np: NoiseParams, oct: nat): (f: real)
    requires np.lacunarity > 0.0
    ensures f > 0.0
  {
    PowPositive(np.lacunarity, oct);
    Pow(np.lacunarity, oct)
  }

  /** The octave with the highest frequency. */
  function WorstOctave(np: NoiseParams): nat
    requires np.octaves > 0
  {
    if np.lacunarity > 1.0 then np.octaves - 1 else 0
  }

  lemma WorstIsLargest(np: NoiseParams, oct: nat)
    requires np.lacunarity > 0.0 && oct < np.octaves
    ensures Frequency(np, oct) <= Frequency(np, WorstOctave(np))
  {
    if np.lacunarity > 1.0 {
      PowGrows(np.lacunarity, oct, np.octaves - 1);
    } else {
      PowShrinks(np.lacunarity, oct);
    }
  }

  lemma QuotientPositive(a: real, s: real)
    requires a > 0.0 && s > 0.0
    ensures a / s > 0.0
  {
  }

  lemma SpreadPositive(np: NoiseParams, size: nat, spread: real)
    requires np.lacunarity > 0.0 && AxisAccepted(np, size, spread)
    ensures spread > 0.0 && Ofactor(np) > 0.0
  {
    var o := Ofactor(np);
    PowPositive(np.lacunarity, if np.octaves == 0 then 0 else np.octaves - 1);
    assert o > 0.0;
    Signs(spread / o, o, spread);
  }

  /** Where the walk of frequency `f` starts for cells from `p` on. */
  function Place(p: real, f: real, spread: real): real
    requires spread > 0.0
  {
    p / spread * f
  }

  /** The lattice points that one axis needs at frequency `f`, for cells from `p` on. */
  function PointsFrom(p: real, size: nat, f: real, spread: real): nat
    requires f > 0.0 && spread > 0.0
  {
    QuotientPositive(f, spread);
    Points(Place(p, f, spread), size, f / spread)
  }

  /** The same for an octave. */
  function OctavePoints(np: NoiseParams, p: real, size: nat, spread: real, oct: nat): nat
    requires np.lacunarity > 0.0 && spread > 0.0
  {
    PointsFrom(p, size, Frequency(np, oct), spread)
  }

  /** The most lattice points that a walk needs, wherever it starts. */
  function MostPoints(size: nat, step: real): nat
    requires step >= 0.0
  {
    TimesMonotone(0, size, step);
    CeilAtLeast(Times(size, step), 0);
    Ceil(Times(size, step)) + 2
  }

  lemma CeilAtLeast(r: real, n: int)
    requires n as real <= r
    ensures n <= Ceil(r)
  {
  }

  lemma CeilMonotone(a: real, b: real)
    requires a <= b
    ensures Ceil(a) <= Ceil(b)
  {
  }

  lemma PointsAtMost(start: real, size: nat, step: real)
    requires step >= 0.0
    ensures Points(start, size, step) <= MostPoints(size, step)
  {
    hide Times;
    var t := Times(size, step);
    assert start - start.Floor as real < 1.0 && t <= Ceil(t) as real;
  }

  /** Some start does need as many. */
  lemma WorstStart(size: nat, step: real) returns (start: real)
    requires step >= 0.0
    ensures Points(start, size, step) == MostPoints(size, step)
  {
    hide Times;
    var t := Times(size, step);
    start := Ceil(t) as real - t;
    FloorIs(start, 0);
    assert start - start.Floor as real + t == Ceil(t) as real;
  }

  lemma {:induction false} TimesGrows(n: nat, s: real, s1: real)
    requires s <= s1
    ensures Times(n, s) <= Times(n, s1)
  {
    if n > 0 {
      TimesGrows(n - 1, s, s1);
    }
  }

  /** The most lattice points that one axis needs at frequency `f`, wherever it starts. */
  function MostAt(size: nat, f: real, spread: real): nat
    requires f > 0.0 && spread > 0.0
  {
    QuotientPositive(f, spread);
    MostPoints(size, f / spread)
  }

  /** The most it needs for any octave. */
  function MostOf(np: NoiseParams, size: nat, spread: real): nat
    requires np.lacunarity > 0.0 && spread > 0.0 && np.octaves > 0
  {
    MostAt(size, Frequency(np, WorstOctave(np)), spread)
  }

  lemma MostAtGrows(p: real, size: nat, f: real, w: real, spread: real)
    requires 0.0 < f <= w && spread > 0.0
    ensures PointsFrom(p, size, f, spread) <= MostAt(size, w, spread)
  {
    QuotientPositive(f, spread);
    DividesMonotone(f, w, spread);
    PointsAtMost(Place(p, f, spread), size, f / spread);
    TimesGrows(size, f / spread, w / spread);
    CeilMonotone(Times(size, f / spread), Times(size, w / spread));
  }

  lemma MostAtPlace(size: nat, w: real, spread: real) returns (p: real)
    requires w > 0.0 && spread > 0.0
    ensures PointsFrom(p, size, w, spread) == MostAt(size, w, spread)
  {
    QuotientPositive(w, spread);
    var start := WorstStart(size, w / spread);
    p := start / w * spread;
    ThereAndBack(start, w, spread);
    assert Place(p, w, spread) == start;
  }

  lemma MostAtIs(size: nat, w: real, spread: real)
    requires w > 0.0 && spread > 0.0
    ensures MostAt(size, w, spread) == Ceil(Extent(size, w, spread)) + 2
  {
    QuotientPositive(w, spread);
    TimesIsProduct(size, w / spread);
    ProductDivided(size, w, spread);
    assert Times(size, w / spread) == Extent(size, w, spread);
  }

  lemma OctaveAtMost(np: NoiseParams, p: real, size: nat, spread: real, oct: nat)
    requires np.lacunarity > 0.0 && spread > 0.0 && oct < np.octaves
    ensures OctavePoints(np, p, size, spread, oct) <= MostOf(np, size, spread)
  {
    WorstIsLargest(np, oct);
    MostAtGrows(p, size, Frequency(np, oct), Frequency(np, WorstOctave(np)), spread);
  }

  lemma WorstPlace(np: NoiseParams, size: nat, spread: real) returns (p: real)
    requires np.lacunarity > 0.0 && spread > 0.0 && np.octaves > 0
    ensures OctavePoints(np, p, size, spread, WorstOctave(np)) == MostOf(np, size, spread)
  {
    p := MostAtPlace(size, Frequency(np, WorstOctave(np)), spread);
  }

  lemma ThereAndBack(a: real, w: real, s: real)
    requires w > 0.0 && s > 0.0
    ensures a / w * s / s * w == a
  {
    assert a / w * s / s == a / w;
  }

  /** The lattices of all octaves of a plane map from (x, y) on stay inside the buffer. */
  ghost predicate PlaneFits(np: NoiseParams, sx: nat, sy: nat, sz: nat, x: real, y: real)
    requires Accepted(np, sx, sy, sz) && np.lacunarity > 0.0
  {
    SpreadPositive(np, sx, np.spreadX);
    SpreadPositive(np, sy, np.spreadY);
    forall oct {:trigger OctavePoints(np, x, sx, np.spreadX, oct)} :: 0 <= oct < np.octaves ==>
      Rows(OctavePoints(np, x, sx, np.spreadX, oct), OctavePoints(np, y, sy, np.spreadY, oct)) <= BufferSize(np, sx, sy, sz)
  }

  ghost predicate VolumeFits(np: NoiseParams, sx: nat, sy: nat, sz: nat, x: real, y: real, z: real)
    requires Accepted(np, sx, sy, sz) && np.lacunarity > 0.0
  {
    SpreadPositive(np, sx, np.spreadX);
    SpreadPositive(np, sy, np.spreadY);
    SpreadPositive(np, sz, np.spreadZ);
    forall oct {:trigger OctavePoints(np, x, sx, np.spreadX, oct)} :: 0 <= oct < np.octaves ==>
      Rows(Rows(OctavePoints(np, x, sx, np.spreadX, oct), OctavePoints(np, y, sy, np.spreadY, oct)),
           OctavePoints(np, z, sz, np.spreadZ, oct)) <= BufferSize(np, sx, sy, sz)
  }

  /** What the highest octave of a plane map needs at its worst place. */
  function PlaneNeeds(np: NoiseParams, sx: nat, sy: nat, sz: nat): nat
    requires Sane(np, sx, sy, sz)
  {
    SpreadPositive(np, sx, np.spreadX);
    SpreadPositive(np, sy, np.spreadY);
    Rows(MostOf(np, sx, np.spreadX), MostOf(np, sy, np.spreadY))
  }

  function VolumeNeeds(np: NoiseParams, sx: nat, sy: nat, sz: nat): nat
    requires Sane(np, sx, sy, sz)
  {
    SpreadPositive(np, sz, np.spreadZ);
    Rows(PlaneNeeds(np, sx, sy, sz), MostOf(np, sz, np.spreadZ))
  }

  /** A plane map stays inside its buffer wherever it is asked for exactly when that is large enough for its worst place. */
  lemma PlaneFitsExactly(np: NoiseParams, sx: nat, sy: nat, sz: nat)
    requires Sane(np, sx, sy, sz)
    ensures (forall x, y :: PlaneFits(np, sx, sy, sz, x, y)) <==> PlaneNeeds(np, sx, sy, sz) <= BufferSize(np, sx, sy, sz)
  {
    hide OctavePoints, MostOf, BufferSize, Rows;
    SpreadPositive(np, sx, np.spreadX);
    SpreadPositive(np, sy, np.spreadY);
    if PlaneNeeds(np, sx, sy, sz) <= BufferSize(np, sx, sy, sz) {
      forall x, y ensures PlaneFits(np, sx, sy, sz, x, y) {
        forall oct | 0 <= oct < np.octaves
          ensures Rows(OctavePoints(np, x, sx, np.spreadX, oct), OctavePoints(np, y, sy, np.spreadY, oct))
                  <= PlaneNeeds(np, sx, sy, sz)
        {
          OctaveAtMost(np, x, sx, np.spreadX, oct);
          OctaveAtMost(np, y, sy, np.spreadY, oct);
          RowsMonotone(OctavePoints(np, x, sx, np.spreadX, oct), OctavePoints(np, y, sy, np.spreadY, oct),
                       MostOf(np, sx, np.spreadX), MostOf(np, sy, np.spreadY));
        }
      }
    } else {
      var x := WorstPlace(np, sx, np.spreadX);
      var y := WorstPlace(np, sy, np.spreadY);
      assert !PlaneFits(np, sx, sy, sz, x, y);
    }
  }

  /** The same in space. */
  lemma VolumeFitsExactly(np: NoiseParams, sx: nat, sy: nat, sz: nat)
    requires Sane(np, sx, sy, sz)
    ensures (forall x, y, z :: VolumeFits(np, sx, sy, sz, x, y, z)) <==>
            VolumeNeeds(np, sx, sy, sz) <= BufferSize(np, sx, sy, sz)
  {
    hide OctavePoints, MostOf, BufferSize, Rows;
    SpreadPositive(np, sx, np.spreadX);
    SpreadPositive(np, sy, np.spreadY);
    SpreadPositive(np, sz, np.spreadZ);
    var mx, my, mz := MostOf(np, sx, np.spreadX), MostOf(np, sy, np.spreadY), MostOf(np, sz, np.spreadZ);
    if VolumeNeeds(np, sx, sy, sz) <= BufferSize(np, sx, sy, sz) {
      forall x, y, z ensures VolumeFits(np, sx, sy, sz, x, y, z) {
        forall oct | 0 <= oct < np.octaves
          ensures Rows(Rows(OctavePoints(np, x, sx, np.spreadX, oct), OctavePoints(np, y, sy, np.spreadY, oct)),
                       OctavePoints(np, z, sz, np.spreadZ, oct)) <= VolumeNeeds(np, sx, sy, sz)
        {
          var a, b, c := OctavePoints(np, x, sx, np.spreadX, oct), OctavePoints(np, y, sy, np.spreadY, oct),
            OctavePoints(np, z, sz, np.spreadZ, oct);
          OctaveAtMost(np, x, sx, np.spreadX, oct);
          OctaveAtMost(np, y, sy, np.spreadY, oct);
          OctaveAtMost(np, z, sz, np.spreadZ, oct);
          RowsMonotone(a, b, mx, my);
          RowsMonotone(Rows(a, b), c, Rows(mx, my), mz);
        }
      }
    } else {
      var x := WorstPlace(np, sx, np.spreadX);
      var y := WorstPlace(np, sy, np.spreadY);
      var z := WorstPlace(np, sz, np.spreadZ);
      assert !VolumeFits(np, sx, sy, sz, x, y, z);
    }
  }

  /** With octaves that grow, an axis never needs more than all its points but one. */
  lemma GrowingNeeds(np: NoiseParams, size: nat, spread: real)
    requires np.lacunarity >= 1.0 && np.octaves > 0 && AxisAccepted(np, size, spread) && spread > 0.0
    ensures MostOf(np, size, spread) == AxisPoints(np, size, spread) - 1
  {
    if np.lacunarity == 1.0 { PowOne(np.octaves - 1); }
    MostAtIs(size, Ofactor(np), spread);
  }

  /** An axis needs at least all its points but one, which are three or more. */
  lemma AxisNeeds(np: NoiseParams, size: nat, spread: real)
    requires np.lacunarity > 0.0 && np.octaves > 0 && AxisAccepted(np, size, spread) && spread > 0.0 && size > 0
    ensures AxisPoints(np, size, spread) - 1 <= MostOf(np, size, spread) && AxisPoints(np, size, spread) >= 4
  {
    SpreadPositive(np, size, spread);
    FactorAtMost(np);
    MostAtLeast(size, Ofactor(np), Frequency(np, WorstOctave(np)), spread);
  }

  lemma MostAtLeast(size: nat, o: real, w: real, spread: real)
    requires 0.0 < o <= w && spread > 0.0 && size > 0
    ensures Ceil(Extent(size, o, spread)) + 2 <= MostAt(size, w, spread) && Ceil(Extent(size, o, spread)) >= 1
  {
    MostAtIs(size, w, spread);
    MultiplyMonotone(size, o, w);
    DividesMonotone(size as real * o, size as real * w, spread);
    CeilMonotone(Extent(size, o, spread), Extent(size, w, spread));
    ProductPositive(size, o);
    QuotientPositive(size as real * o, spread);
    CeilPositive(Extent(size, o, spread));
  }

  lemma FactorAtMost(np: NoiseParams)
    requires np.lacunarity > 0.0 && np.octaves > 0
    ensures Ofactor(np) <= Frequency(np, WorstOctave(np))
  {
  }

  lemma ProductPositive(n: nat, r: real)
    requires n > 0 && r > 0.0
    ensures n as real * r > 0.0
  {
  }

  lemma CeilPositive(r: real)
    requires r > 0.0
    ensures Ceil(r) >= 1
  {
  }

  /** Maps whose octaves grow fit, */
  lemma GrowingFits(np: NoiseParams, sx: nat, sy: nat, sz: nat)
    requires Sane(np, sx, sy, sz) && np.lacunarity >= 1.0
    ensures PlaneNeeds(np, sx, sy, sz) <= BufferSize(np, sx, sy, sz)
    ensures sz > 1 ==> VolumeNeeds(np, sx, sy, sz) <= BufferSize(np, sx, sy, sz)
  {
    hide MostOf, AxisPoints, AxisAccepted;
    SpreadPositive(np, sx, np.spreadX);
    SpreadPositive(np, sy, np.spreadY);
    SpreadPositive(np, sz, np.spreadZ);
    GrowingNeeds(np, sx, np.spreadX);
    GrowingNeeds(np, sy, np.spreadY);
    GrowingNeeds(np, sz, np.spreadZ);
    var nx, ny, nz := AxisPoints(np, sx, np.spreadX), AxisPoints(np, sy, np.spreadY), AxisPoints(np, sz, np.spreadZ);
    PointsProvided(np, sx, np.spreadX);
    PointsProvided(np, sy, np.spreadY);
    PointsProvided(np, sz, np.spreadZ);
    RowsMonotone(nx - 1, ny - 1, nx, ny);
    RowsMonotone(nx, ny, nx, ny);
    RowsMonotone(Rows(nx - 1, ny - 1), nz - 1, Rows(nx, ny), nz);
    RowsMonotone(Rows(nx, ny), 1, Rows(nx, ny), if sz > 1 then nz else 1);
    assert Rows(Rows(nx, ny), 1) == Rows(nx, ny);
  }

  /** but a map in space with a single plane never does at all places: its buffer is that of a plane. */
  lemma SinglePlaneOverruns(np: NoiseParams, sx: nat, sy: nat)
    requires Sane(np, sx, sy, 1) && sx > 0 && sy > 0
    ensures VolumeNeeds(np, sx, sy, 1) > BufferSize(np, sx, sy, 1)
  {
    hide MostOf, AxisPoints, AxisAccepted;
    SpreadPositive(np, sx, np.spreadX);
    SpreadPositive(np, sy, np.spreadY);
    SpreadPositive(np, 1, np.spreadZ);
    AxisNeeds(np, sx, np.spreadX);
    AxisNeeds(np, sy, np.spreadY);
    AxisNeeds(np, 1, np.spreadZ);
    var nx, ny := AxisPoints(np, sx, np.spreadX), AxisPoints(np, sy, np.spreadY);
    var mx, my, mz := MostOf(np, sx, np.spreadX), MostOf(np, sy, np.spreadY), MostOf(np, 1, np.spreadZ);
    RowsMonotone(nx - 1, ny - 1, mx, my);
    RowsMonotone(Rows(nx - 1, ny - 1), 3, Rows(mx, my), mz);
    ThriceIsMore(nx - 1, ny - 1);
    assert Rows(Rows(nx, ny), 1) == Rows(nx, ny);
  }

  lemma ThriceIsMore(m: nat, n: nat)
    requires m >= 3 && n >= 3
    ensures Rows(m + 1, n + 1) < Rows(Rows(m, n), 3)
  {
    RowsIsProduct(m + 1, n + 1);
    RowsIsProduct(m, n);
    RowsIsProduct(Rows(m, n), 3);
    Triple(m, n);
  }

  lemma Triple(m: nat, n: nat)
    requires m >= 3 && n >= 3
    ensures (n + 1) * (m + 1) < 3 * (n * m)
  {
    assert (n + 1) * (m + 1) == n * m + n + m + 1;
    assert n * m >= 3 * n && n * m >= 3 * m;
  }

  /** No octave steps by more than one lattice cell, which the walk relies on. */
  ghost predicate StepsFit(np: NoiseParams, spread: real)
    requires np.lacunarity > 0.0 && spread != 0.0
  {
    forall oct {:trigger Frequency(np, oct)} :: 0 <= oct < np.octaves ==> Frequency(np, oct) / spread <= 1.0
  }

  /** Along an axis with that many cells the walk stays on its points: it takes no step that is too long. */
  ghost predicate AxisSteps(np: NoiseParams, size: nat, spread: real)
    requires np.lacunarity > 0.0 && spread != 0.0
  {
    size <= 1 || StepsFit(np, spread)
  }

  lemma StepsFitExactly(np: NoiseParams, spread: real)
    requires np.lacunarity > 0.0 && np.octaves > 0 && spread > 0.0
    ensures StepsFit(np, spread) <==> Frequency(np, WorstOctave(np)) <= spread
  {
    var w := Frequency(np, WorstOctave(np));
    if w <= spread {
      forall oct | 0 <= oct < np.octaves ensures Frequency(np, oct) / spread <= 1.0 {
        WorstIsLargest(np, oct);
        DividesMonotone(Frequency(np, oct), spread, spread);
      }
    } else {
      DividesMonotone(spread, w, spread);
      assert w / spread * spread == w;
      assert w / spread > 1.0;
    }
  }

  /** Octaves that grow step right in every accepted map. */
  lemma GrowingSteps(np: NoiseParams, size: nat, spread: real)
    requires np.lacunarity >= 1.0 && np.octaves > 0 && AxisAccepted(np, size, spread)
    ensures StepsFit(np, spread)
  {
    SpreadPositive(np, size, spread);
    StepsFitExactly(np, spread);
    PowGrows(np.lacunarity, 0, np.octaves - 1);
    if np.lacunarity == 1.0 { PowOne(np.octaves - 1); }
    SpreadAtLeast(spread, Ofactor(np));
  }

  /** Every accepted map whose octaves grow can be walked everywhere, in space if it has more than one plane. */
  lemma GrowingMaps(np: NoiseParams, sx: nat, sy: nat, sz: nat)
    requires Accepted(np, sx, sy, sz) && np.lacunarity >= 1.0
    ensures StepsFit(np, np.spreadX) && StepsFit(np, np.spreadY) && StepsFit(np, np.spreadZ)
    ensures forall x, y :: PlaneFits(np, sx, sy, sz, x, y)
    ensures sz > 1 ==> forall x, y, z :: VolumeFits(np, sx, sy, sz, x, y, z)
  {
    if np.octaves > 0 {
      GrowingSteps(np, sx, np.spreadX);
      GrowingSteps(np, sy, np.spreadY);
      GrowingSteps(np, sz, np.spreadZ);
      GrowingFits(np, sx, sy, sz);
      PlaneFitsExactly(np, sx, sy, sz);
      VolumeFitsExactly(np, sx, sy, sz);
    }
  }

  // A lacunarity below 1 sizes the buffer for less than the first octave.
  const SHRINKING := NoiseParams(0.0, 1.0, 1.0, 1.0, 1.0, 0, 1, 1.0, 0.5, true, false, false)

  /** An accepted map of 10 by 10 cells that can need 144 lattice points and has 64. */
  lemma ShrinkingOverruns()
    ensures Sane(SHRINKING, 10, 10, 1)
    ensures PlaneNeeds(SHRINKING, 10, 10, 1) == 144 && BufferSize(SHRINKING, 10, 10, 1) == 64
  {
    assert 10 as real * 0.5 / 1.0 == 5.0 && (-5.0 as real).Floor == -5;
    assert AxisAccepted(SHRINKING, 10, 1.0) && AxisAccepted(SHRINKING, 1, 1.0);
    assert AxisPoints(SHRINKING, 10, 1.0) == 8;
    TimesIsProduct(10, 1.0);
    assert Pow(0.5, 0) / 1.0 == 1.0 && (-10.0 as real).Floor == -10;
    assert MostOf(SHRINKING, 10, 1.0) == 12;
    RowsIsProduct(12, 12);
    RowsIsProduct(8, 8);
    assert Rows(64, 1) == 64;
  }

  /** It is accepted with a spread of 1/2 as well, although its first octave then steps by two lattice cells. */
  lemma ShrinkingSteps()
    ensures AxisAccepted(SHRINKING.(spreadX := 0.5), 10, 0.5) && !StepsFit(SHRINKING.(spreadX := 0.5), 0.5)
  {
    var np := SHRINKING.(spreadX := 0.5);
    StepsFitExactly(np, 0.5);
    assert Frequency(np, 0) == 1.0;
  }

  // A map of one octave and the usual lacunarity.
  const PLAIN := NoiseParams(0.0, 1.0, 1.0, 1.0, 1.0, 0, 1, 1.0, 2.0, true, false, false)

  /** Its single cell can need 27 lattice points in space, of which it has 16. */
  lemma SingleCellOverruns()
    ensures Sane(PLAIN, 1, 1, 1) && VolumeNeeds(PLAIN, 1, 1, 1) == 27 && BufferSize(PLAIN, 1, 1, 1) == 16
  {
    assert Pow(2.0, 0) == 1.0 && 1 as real * 1.0 / 1.0 == 1.0 && (-1.0 as real).Floor == -1;
    assert AxisAccepted(PLAIN, 1, 1.0);
    TimesIsProduct(1, 1.0);
    assert AxisPoints(PLAIN, 1, 1.0) == 4 && MostOf(PLAIN, 1, 1.0) == 3;
    RowsIsProduct(3, 3);
    RowsIsProduct(9, 3);
    RowsIsProduct(4, 4);
    assert Rows(16, 1) == 16;
  }
}
