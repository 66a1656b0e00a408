/** Exactly which noise maps hold noise: those that never step by more than a lattice cell. */
module NoiseSteps {
  import opened NoiseValue
  import opened NoiseWalk
  import opened NoiseBuffers
  import opened NoiseFit
  import opened NoiseMap

  /** What the walk of an octave yields for a cell is the octave's noise at the cell's point. */
  ghost predicate OctaveRight2(k: Kernel, np: NoiseParams, x: real, y: real, seed: int, oct: nat, i: nat, j: nat)
    requires np.spreadX != 0.0 && np.spreadY != 0.0
  {
    var f := Pow(np.lacunarity, oct);
    WalkOctave2(k, np, x, y, seed, oct, i, j) ==
    Value2D(k, StartAt(x + i as real, np.spreadX, f), StartAt(y + j as real, np.spreadY, f), seed, np.defaults || np.eased)
  }

  ghost predicate OctaveRight3(k: Kernel, np: NoiseParams, x: real, y: real, z: real, seed: int, oct: nat,
                               i: nat, j: nat, d: nat)
    requires np.spreadX != 0.0 && np.spreadY != 0.0 && np.spreadZ != 0.0
  {
    var f := Pow(np.lacunarity, oct);
    WalkOctave3(k, np, x, y, z, seed, oct, i, j, d) ==
    Value3D(k, StartAt(x + i as real, np.spreadX, f), StartAt(y + j as real, np.spreadY, f),
            StartAt(z + d as real, np.spreadZ, f), seed, np.eased)
  }

  // Interpolations that tell how far inside a cell they are asked along one axis.
  const TELL_X := Kernel((x, y, s) => 0.0, (x, y, z, s) => 0.0, (c, u, v, e) => u, (c, u, v, w, e) => u)
  const TELL_Y := Kernel((x, y, s) => 0.0, (x, y, z, s) => 0.0, (c, u, v, e) => v, (c, u, v, w, e) => v)
  const TELL_Z := Kernel((x, y, s) => 0.0, (x, y, z, s) => 0.0, (c, u, v, e) => v, (c, u, v, w, e) => w)

  /** An octave that steps too far, and a point from which its first step leaves the walk behind. */
  lemma LateWalk(np: NoiseParams, size: nat, spread: real) returns (oct: nat, p: real)
    requires np.lacunarity > 0.0 && spread > 0.0 && !AxisSteps(np, size, spread)
    ensures size > 1 && oct < np.octaves
    ensures var f := Pow(np.lacunarity, oct); WalkAt(StartAt(p, spread, f), StepOf(f, spread), 1).frac >= 1.0
  {
    oct :| 0 <= oct < np.octaves && Frequency(np, oct) / spread > 1.0;
    var f := Frequency(np, oct);
    FrequencyIs(np, oct);
    LateStartFallsBehind(f / spread);
    var start := LateStart(f / spread);
    p := start / f * spread;
    ThereAndBack(start, f, spread);
    assert StartAt(p, spread, f) == start;
  }

  lemma InsideCell(r: real)
    ensures r - r.Floor as real < 1.0
  {
  }

  /** The octaves of a plane map are noise at every place, whatever the lattice noise, exactly if neither axis steps too far. */
  lemma PlaneStepsExactly(np: NoiseParams, sx: nat, sy: nat, sz: nat)
    requires Sane(np, sx, sy, sz) && sx > 0 && sy > 0
    ensures np.spreadX > 0.0 && np.spreadY > 0.0
    ensures (forall k: Kernel, x, y, seed, oct: nat, i: nat, j: nat
               {:trigger OctaveRight2(k, np, x, y, seed, oct, i, j)} ::
               oct < np.octaves && i < sx && j < sy ==> OctaveRight2(k, np, x, y, seed, oct, i, j)) <==>
            AxisSteps(np, sx, np.spreadX) && AxisSteps(np, sy, np.spreadY)
  {
    hide AxisSteps, OctaveOn, StartAt, StepOf, Pow, WalkAt;
    SpreadPositive(np, sx, np.spreadX);
    SpreadPositive(np, sy, np.spreadY);
    if !AxisSteps(np, sx, np.spreadX) {
      var oct, p := LateWalk(np, sx, np.spreadX);
      InsideCell(StartAt(p + 1.0, np.spreadX, Pow(np.lacunarity, oct)));
      assert !OctaveRight2(TELL_X, np, p, 0.0, 0, oct, 1, 0);
    } else if !AxisSteps(np, sy, np.spreadY) {
      var oct, p := LateWalk(np, sy, np.spreadY);
      InsideCell(StartAt(p + 1.0, np.spreadY, Pow(np.lacunarity, oct)));
      assert !OctaveRight2(TELL_Y, np, 0.0, p, 0, oct, 0, 1);
    } else {
      forall k: Kernel, x, y, seed, oct: nat, i: nat, j: nat | oct < np.octaves && i < sx && j < sy
        ensures OctaveRight2(k, np, x, y, seed, oct, i, j)
      {
        StepsOn(np, x, sx, np.spreadX, oct, i);
        StepsOn(np, y, sy, np.spreadY, oct, j);
        OctaveIsNoise2(k, np, x, y, seed, oct, i, j);
      }
    }
  }

  /** The same in space. */
  lemma VolumeStepsExactly(np: NoiseParams, sx: nat, sy: nat, sz: nat)
    requires Sane(np, sx, sy, sz) && sx > 0 && sy > 0 && sz > 0
    ensures np.spreadX > 0.0 && np.spreadY > 0.0 && np.spreadZ > 0.0
    ensures (forall k: Kernel, x, y, z, seed, oct: nat, i: nat, j: nat, d: nat
               {:trigger OctaveRight3(k, np, x, y, z, seed, oct, i, j, d)} ::
               oct < np.octaves && i < sx && j < sy && d < sz ==> OctaveRight3(k, np, x, y, z, seed, oct, i, j, d)) <==>
            AxisSteps(np, sx, np.spreadX) && AxisSteps(np, sy, np.spreadY) && AxisSteps(np, sz, np.spreadZ)
  {
    hide AxisSteps, OctaveOn, StartAt, StepOf, Pow, WalkAt;
    SpreadPositive(np, sx, np.spreadX);
    SpreadPositive(np, sy, np.spreadY);
    SpreadPositive(np, sz, np.spreadZ);
    if !AxisSteps(np, sx, np.spreadX) {
      var oct, p := LateWalk(np, sx, np.spreadX);
      InsideCell(StartAt(p + 1.0, np.spreadX, Pow(np.lacunarity, oct)));
      assert !OctaveRight3(TELL_X, np, p, 0.0, 0.0, 0, oct, 1, 0, 0);
    } else if !AxisSteps(np, sy, np.spreadY) {
      var oct, p := LateWalk(np, sy, np.spreadY);
      InsideCell(StartAt(p + 1.0, np.spreadY, Pow(np.lacunarity, oct)));
      assert !OctaveRight3(TELL_Y, np, 0.0, p, 0.0, 0, oct, 0, 1, 0);
    } else if !AxisSteps(np, sz, np.spreadZ) {
      var oct, p := LateWalk(np, sz, np.spreadZ);
      InsideCell(StartAt(p + 1.0, np.spreadZ, Pow(np.lacunarity, oct)));
      assert !OctaveRight3(TELL_Z, np, 0.0, 0.0, p, 0, oct, 0, 0, 1);
    } else {
      forall k: Kernel, x, y, z, seed, oct: nat, i: nat, j: nat, d: nat | oct < np.octaves && i < sx && j < sy && d < sz
        ensures OctaveRight3(k, np, x, y, z, seed, oct, i, j, d)
      {
        StepsOn(np, x, sx, np.spreadX, oct, i);
        StepsOn(np, y, sy, np.spreadY, oct, j);
        StepsOn(np, z, sz, np.spreadZ, oct, d);
        OctaveIsNoise3(k, np, x, y, z, seed, oct, i, j, d);
      }
    }
  }

  /** With a negative lacunarity only negative spreads are accepted, and the first octave walks backwards:
      from the origin, the reach that its lattice is sized by is negative. */
  lemma NegativeLacunarity(np: NoiseParams, size: nat, spread: real)
    requires np.lacunarity < 0.0 && np.octaves > 0 && AxisAccepted(np, size, spread) && size > 0
    ensures spread < 0.0 && StepOf(Pow(np.lacunarity, 0), spread) < 0.0
    ensures size as real * StepOf(Pow(np.lacunarity, 0), spread) < 0.0
  {
    var q, o := spread / np.lacunarity, np.lacunarity;
    assert q * o == spread && q >= 1.0;
    assert (q - 1.0) * -o >= 0.0;
    var step := 1.0 / spread;
    assert step * spread == 1.0;
    assert step < 0.0;
    ProductNegative(size, step);
  }

  lemma ProductNegative(n: nat, r: real)
    requires n > 0 && r < 0.0
    ensures n as real * r < 0.0
  {
  }
}
