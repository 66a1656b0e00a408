/** Value noise at a point, and its fractal sum. */
module NoiseValue {
  /** Lattice noise and interpolation; the results below hold for all of them. */
  datatype Kernel = Kernel(
    noise2d: (int, int, int) -> real,
    noise3d: (int, int, int, int) -> real,
    blend2: (seq<real>, real, real, bool) -> real,        // of the corner values 00, 10, 01, 11
    blend3: (seq<real>, real, real, real, bool) -> real)  // of 000, 100, 010, 110, 001, 101, 011, 111

  datatype NoiseParams = NoiseParams(
    offset: real, scale: real, spreadX: real, spreadY: real, spreadZ: real, seed: int,
    octaves: nat, persist: real, lacunarity: real, defaults: bool, eased: bool, absvalue: bool)

  function Abs(r: real): real { if r < 0.0 then -r else r }

  function Corners2(k: Kernel, x0: int, y0: int, seed: int): seq<real> {
    [k.noise2d(x0, y0, seed), k.noise2d(x0 + 1, y0, seed), k.noise2d(x0, y0 + 1, seed), k.noise2d(x0 + 1, y0 + 1, seed)]
  }

  /** noise2d_value. */
  function Value2D(k: Kernel, x: real, y: real, seed: int, eased: bool): real {
    k.blend2(Corners2(k, x.Floor, y.Floor, seed), x - x.Floor as real, y - y.Floor as real, eased)
  }

  function Corners3(k: Kernel, x0: int, y0: int, z0: int, seed: int): seq<real> {
    [k.noise3d(x0, y0, z0, seed), k.noise3d(x0 + 1, y0, z0, seed),
     k.noise3d(x0, y0 + 1, z0, seed), k.noise3d(x0 + 1, y0 + 1, z0, seed),
     k.noise3d(x0, y0, z0 + 1, seed), k.noise3d(x0 + 1, y0, z0 + 1, seed),
     k.noise3d(x0, y0 + 1, z0 + 1, seed), k.noise3d(x0 + 1, y0 + 1, z0 + 1, seed)]
  }

  /** noise3d_value. */
  function Value3D(k: Kernel, x: real, y: real, z: real, seed: int, eased: bool): real {
    k.blend3(Corners3(k, x.Floor, y.Floor, z.Floor, seed),
             x - x.Floor as real, y - y.Floor as real, z - z.Floor as real, eased)
  }

  function Pow(b: real, e: nat): real {
    if e == 0 then 1.0 else Pow(b, e - 1) * b
  }

  function Flagged(np: NoiseParams, v: real): real {
    if np.absvalue then Abs(v) else v
  }

  /** With the flag, a value of the same size that is not negative; without it, the value. */
  lemma FlaggedIs(np: NoiseParams, v: real)
    ensures np.absvalue ==> Flagged(np, v) >= 0.0 && (Flagged(np, v) == v || Flagged(np, v) + v == 0.0)
    ensures !np.absvalue ==> Flagged(np, v) == v
  {
  }

  /** One octave: frequency `f`, amplitude `g`. */
  function Octave2D(k: Kernel, np: NoiseParams, x: real, y: real, seed: int, f: real, g: real): real {
    g * Flagged(np, Value2D(k, x * f, y * f, seed, np.defaults || np.eased))
  }

  function Octave3D(k: Kernel, np: NoiseParams, x: real, y: real, z: real, seed: int, f: real, g: real): real {
    g * Flagged(np, Value3D(k, x * f, y * f, z * f, seed, np.eased))
  }

  /** The first `n` octaves at a point already divided by the spread. */
  function Octaves2D(k: Kernel, np: NoiseParams, x: real, y: real, seed: int, n: nat): real {
    if n == 0 then 0.0
    else
      Octaves2D(k, np, x, y, seed, n - 1) +
      Octave2D(k, np, x, y, seed + (n - 1), Pow(np.lacunarity, n - 1), Pow(np.persist, n - 1))
  }

  function Octaves3D(k: Kernel, np: NoiseParams, x: real, y: real, z: real, seed: int, n: nat): real {
    if n == 0 then 0.0
    else
      Octaves3D(k, np, x, y, z, seed, n - 1) +
      Octave3D(k, np, x, y, z, seed + (n - 1), Pow(np.lacunarity, n - 1), Pow(np.persist, n - 1))
  }

  function Fractal2D(k: Kernel, np: NoiseParams, x: real, y: real, seed: int): real
    requires np.spreadX != 0.0 && np.spreadY != 0.0
  {
    np.offset + Octaves2D(k, np, x / np.spreadX, y / np.spreadY, seed + np.seed, np.octaves) * np.scale
  }

  function Fractal3D(k: Kernel, np: NoiseParams, x: real, y: real, z: real, seed: int): real
    requires np.spreadX != 0.0 && np.spreadY != 0.0 && np.spreadZ != 0.0
  {
    np.offset +
    Octaves3D(k, np, x / np.spreadX, y / np.spreadY, z / np.spreadZ, seed + np.seed, np.octaves) * np.scale
  }

  lemma Congruent2(k: Kernel, x: real, y: real, x1: real, y1: real, seed: int, eased: bool)
    requires x == x1 && y == y1
    ensures Value2D(k, x, y, seed, eased) == Value2D(k, x1, y1, seed, eased)
  {
  }

  lemma Congruent3(k: Kernel, x: real, y: real, z: real, x1: real, y1: real, z1: real, seed: int, eased: bool)
    requires x == x1 && y == y1 && z == z1
    ensures Value3D(k, x, y, z, seed, eased) == Value3D(k, x1, y1, z1, seed, eased)
  {
  }

  lemma OctavesStep2(k: Kernel, np: NoiseParams, x: real, y: real, seed: int, n: nat, f: real, g: real)
    requires f == Pow(np.lacunarity, n) && g == Pow(np.persist, n)
    ensures Octaves2D(k, np, x, y, seed, n + 1) ==
            Octaves2D(k, np, x, y, seed, n) + Octave2D(k, np, x, y, seed + n, f, g)
  {
    hide Octave2D;
  }

  lemma OctaveIs2(k: Kernel, np: NoiseParams, x: real, y: real, seed: int, f: real, g: real, xf: real, yf: real)
    requires xf == x * f && yf == y * f
    ensures Octave2D(k, np, x, y, seed, f, g) == g * Flagged(np, Value2D(k, xf, yf, seed, np.defaults || np.eased))
  {
    hide Value2D;
    Congruent2(k, x * f, y * f, xf, yf, seed, np.defaults || np.eased);
  }

  lemma OctavesStep3(k: Kernel, np: NoiseParams, x: real, y: real, z: real, seed: int, n: nat, f: real, g: real)
    requires f == Pow(np.lacunarity, n) && g == Pow(np.persist, n)
    ensures Octaves3D(k, np, x, y, z, seed, n + 1) ==
            Octaves3D(k, np, x, y, z, seed, n) + Octave3D(k, np, x, y, z, seed + n, f, g)
  {
    hide Octave3D;
  }

  lemma OctaveIs3(k: Kernel, np: NoiseParams, x: real, y: real, z: real, seed: int, f: real, g: real, xf: real, yf: real,
                  zf: real)
    requires xf == x * f && yf == y * f && zf == z * f
    ensures Octave3D(k, np, x, y, z, seed, f, g) == g * Flagged(np, Value3D(k, xf, yf, zf, seed, np.eased))
  {
    hide Value3D, Times;
    Congruent3(k, x * f, y * f, z * f, xf, yf, zf, seed, np.eased);
  }

  lemma NextOctave2(k: Kernel, np: NoiseParams, x: real, y: real, seed: int, n: nat, f: real, g: real, v: real)
    requires f == Pow(np.lacunarity, n) && g == Pow(np.persist, n)
    requires v == Flagged(np, Value2D(k, x * f, y * f, seed + n, np.defaults || np.eased))
    ensures Octaves2D(k, np, x, y, seed, n + 1) == Octaves2D(k, np, x, y, seed, n) + g * v
  {
    hide Octave2D;
    OctavesStep2(k, np, x, y, seed, n, f, g);
    OctaveIs2(k, np, x, y, seed + n, f, g, x * f, y * f);
  }

  lemma NextOctave3(k: Kernel, np: NoiseParams, x: real, y: real, z: real, seed: int, n: nat, f: real, g: real, v: real)
    requires f == Pow(np.lacunarity, n) && g == Pow(np.persist, n)
    requires v == Flagged(np, Value3D(k, x * f, y * f, z * f, seed + n, np.eased))
    ensures Octaves3D(k, np, x, y, z, seed, n + 1) == Octaves3D(k, np, x, y, z, seed, n) + g * v
  {
    hide Octave3D;
    OctavesStep3(k, np, x, y, z, seed, n, f, g);
    OctaveIs3(k, np, x, y, z, seed + n, f, g, x * f, y * f, z * f);
  }

  method NoiseFractal2D(k: Kernel, np: NoiseParams, px: real, py: real, pseed: int) returns (r: real)
    requires np.spreadX != 0.0 && np.spreadY != 0.0
    ensures r == Fractal2D(k, np, px, py, pseed)
  {
    hide Value2D;
    var a, f, g := 0.0, 1.0, 1.0;
    var x, y, seed := px / np.spreadX, py / np.spreadY, pseed + np.seed;
    for i := 0 to np.octaves
      invariant f == Pow(np.lacunarity, i) && g == Pow(np.persist, i)
      invariant a == Octaves2D(k, np, x, y, seed, i)
    {
      var noiseval := Value2D(k, x * f, y * f, seed + i, np.defaults || np.eased);
      if np.absvalue {
        noiseval := Abs(noiseval);
      }
      NextOctave2(k, np, x, y, seed, i, f, g, noiseval);
      a := a + g * noiseval;
      f := f * np.lacunarity;
      g := g * np.persist;
    }
    r := np.offset + a * np.scale;
  }

  method NoiseFractal3D(k: Kernel, np: NoiseParams, px: real, py: real, pz: real, pseed: int) returns (r: real)
    requires np.spreadX != 0.0 && np.spreadY != 0.0 && np.spreadZ != 0.0
    ensures r == Fractal3D(k, np, px, py, pz, pseed)
  {
    hide Value3D;
    var a, f, g := 0.0, 1.0, 1.0;
    var x, y, z, seed := px / np.spreadX, py / np.spreadY, pz / np.spreadZ, pseed + np.seed;
    for i := 0 to np.octaves
      invariant f == Pow(np.lacunarity, i) && g == Pow(np.persist, i)
      invariant a == Octaves3D(k, np, x, y, z, seed, i)
    {
      var noiseval := Value3D(k, x * f, y * f, z * f, seed + i, np.eased);
      if np.absvalue {
        noiseval := Abs(noiseval);
      }
      NextOctave3(k, np, x, y, z, seed, i, f, g, noiseval);
      a := a + g * noiseval;
      f := f * np.lacunarity;
      g := g * np.persist;
    }
    r := np.offset + a * np.scale;
  }

  /** n * s, by repeated addition: how far the walk over a row has come. */
  function Times(n: nat, s: real): real {
    if n == 0 then 0.0 else Times(n - 1, s) + s
  }

  lemma {:induction false} TimesIsProduct(n: nat, s: real)
    ensures Times(n, s) == n as real * s
  {
    if n > 0 {
      TimesIsProduct(n - 1, s);
      assert n as real * s == (n - 1) as real * s + s;
    }
  }

  lemma {:induction false} TimesMonotone(m: nat, n: nat, s: real)
    requires m <= n && s >= 0.0
    ensures 0.0 <= Times(m, s) <= Times(n, s)
    decreases n
  {
    if m < n {
      TimesMonotone(m, n - 1, s);
    } else if m > 0 {
      TimesMonotone(m - 1, m - 1, s);
    }
  }

  lemma FloorIs(r: real, n: int)
    requires n as real <= r < n as real + 1.0
    ensures r.Floor == n
  {
  }

  /** Moving by whole units before the spread and the frequency apply equals taking steps after. */
  lemma StepsScale(p: real, n: nat, spread: real, f: real)
    requires spread != 0.0
    ensures (p + n as real) / spread * f == p / spread * f + Times(n, f / spread)
  {
    TimesIsProduct(n, f / spread);
    DivideSum(p, n as real, spread);
    DivideSwap(n as real, spread, f);
  }

  lemma DivideSum(a: real, b: real, s: real)
    requires s != 0.0
    ensures (a + b) / s == a / s + b / s
  {
  }

  lemma DivideSwap(a: real, s: real, f: real)
    requires s != 0.0
    ensures a / s * f == a * (f / s)
  {
    var q := 1.0 / s;
    assert a / s == a * q && f / s == f * q;
  }
}
