/** The buffers behind a bulk noise map: how large the lattice buffer is, and that every octave fits. */
module NoiseBuffers {
  import opened Flat
  import opened NoiseValue
  import opened Options

  function Ceil(r: real): int { -((-r).Floor) }

  /** The largest factor by which an octave divides the spread. */
  function Ofactor(np: NoiseParams): real {
    if np.lacunarity > 1.0 then
      if np.octaves == 0 then 1.0 / np.lacunarity else Pow(np.lacunarity, np.octaves - 1)
    else np.lacunarity
  }

  /** How far `size` cells reach along the lattice of frequency `f`. */
  function Extent(size: nat, f: real, spread: real): real
    requires spread != 0.0
  {
    size as real * f / spread
  }

  const MAX_POINTS := 1000000000.0

  /** The checks of resizeNoiseBuf along one axis: no excessive lattice, no octave with a spread below 1. */
  predicate AxisAccepted(np: NoiseParams, size: nat, spread: real) {
    && spread != 0.0 && Ofactor(np) != 0.0
    && Extent(size, Ofactor(np), spread) <= MAX_POINTS
    && spread / Ofactor(np) >= 1.0
  }

  predicate Accepted(np: NoiseParams, sx: nat, sy: nat, sz: nat) {
    AxisAccepted(np, sx, np.spreadX) && AxisAccepted(np, sy, np.spreadY) && AxisAccepted(np, sz, np.spreadZ)
  }

  /** Lattice points provided along one axis. */
  function AxisPoints(np: NoiseParams, size: nat, spread: real): (n: int)
    requires spread != 0.0
  {
    Ceil(Extent(size, Ofactor(np), spread)) + 3
  }

  lemma {:induction false} PowGrows(b: real, m: nat, n: nat)
    requires b >= 1.0 && m <= n
    ensures 1.0 <= Pow(b, m) <= Pow(b, n)
    decreases n
  {
    if m < n {
      PowGrows(b, m, n - 1);
      Scale(Pow(b, n - 1), b);
    } else if m > 0 {
      PowGrows(b, m - 1, m - 1);
      Scale(Pow(b, m - 1), b);
    }
  }

  lemma Scale(x: real, b: real)
    requires x >= 1.0 && b >= 1.0
    ensures x * b >= x
  {
    assert x * (b - 1.0) >= 0.0;
  }

  lemma DividesMonotone(a: real, b: real, s: real)
    requires s > 0.0 && a <= b
    ensures a / s <= b / s
  {
  }

  lemma MultiplyMonotone(n: nat, a: real, b: real)
    requires a <= b
    ensures n as real * a <= n as real * b
  {
    assert n as real * (b - a) >= 0.0;
  }

  lemma ProductDivided(n: nat, f: real, s: real)
    requires s != 0.0
    ensures n as real * (f / s) == n as real * f / s
  {
    DivideSwap(n as real, s, f);
    var q := 1.0 / s;
    assert n as real * f / s == n as real * f * q && f / s == f * q;
  }

  lemma {:induction false} PowOne(n: nat)
    ensures Pow(1.0, n) == 1.0
  {
    if n > 0 { PowOne(n - 1); }
  }

  lemma SpreadAtLeast(spread: real, o: real)
    requires o >= 1.0 && spread / o >= 1.0
    ensures spread >= o
  {
    assert spread == spread / o * o;
    assert (spread / o - 1.0) * o >= 0.0;
  }

  /** An accepted axis gets at least the three points of an empty one. */
  lemma PointsProvided(np: NoiseParams, size: nat, spread: real)
    requires AxisAccepted(np, size, spread)
    ensures AxisPoints(np, size, spread) >= 3
  {
    var o := Ofactor(np);
    RatioPositive(o, spread);
    ProductDivided(size, o, spread);
    MultiplyMonotone(size, 0.0, o / spread);
  }

  lemma RatioPositive(o: real, spread: real)
    requires o != 0.0 && spread != 0.0 && spread / o >= 1.0
    ensures o / spread > 0.0
  {
    var q, r := spread / o, o / spread;
    assert q * o == spread && r * spread == o;
    if r <= 0.0 {
      Signs(q, o, spread);
      Signs(-r, spread, -o);
    }
  }

  lemma Signs(a: real, b: real, c: real)
    requires a * b == c
    ensures a >= 0.0 && b >= 0.0 ==> c >= 0.0
    ensures a >= 0.0 && b <= 0.0 ==> c <= 0.0
  {
  }

  /** The size of the lattice buffer; a map with one plane gets one plane of lattice points. */
  function BufferSize(np: NoiseParams, sx: nat, sy: nat, sz: nat): nat
    requires Accepted(np, sx, sy, sz)
  {
    PointsProvided(np, sx, np.spreadX);
    PointsProvided(np, sy, np.spreadY);
    PointsProvided(np, sz, np.spreadZ);
    Rows(Rows(AxisPoints(np, sx, np.spreadX), AxisPoints(np, sy, np.spreadY)),
         if sz > 1 then AxisPoints(np, sz, np.spreadZ) else 1)
  }

  /** The checks of resizeNoiseBuf and the number of lattice points along one axis; None stands for an exception. */
  method ResizeAxis(ghost np: NoiseParams, ofactor: real, size: nat, spread: real) returns (points: Option<nat>)
    requires ofactor == Ofactor(np)
    ensures points == if AxisAccepted(np, size, spread) then Some(AxisPoints(np, size, spread)) else None
  {
    hide Ofactor, Ceil;
    // the quotients would not be finite
    if ofactor == 0.0 || spread == 0.0 {
      return None;
    }
    var numNoisePoints := size as real * ofactor / spread;
    assert numNoisePoints == Extent(size, Ofactor(np), spread);
    if numNoisePoints > 1000000000.0 {
      return None;
    }
    if spread / ofactor < 1.0 {
      return None;
    }
    PointsProvided(np, size, spread);
    points := Some(Ceil(numNoisePoints) + 3);
  }

  /** resizeNoiseBuf: how many lattice points the buffer is allocated for; None stands for an exception. */
  method ResizeNoiseBuf(np: NoiseParams, sx: nat, sy: nat, sz: nat) returns (size: Option<nat>)
    ensures size == if Accepted(np, sx, sy, sz) then Some(BufferSize(np, sx, sy, sz)) else None
  {
    hide AxisAccepted, AxisPoints, Rows;
    var ofactor := np.lacunarity;
    if np.lacunarity > 1.0 {
      ofactor := if np.octaves == 0 then 1.0 / np.lacunarity else Pow(np.lacunarity, np.octaves - 1);
    }
    var nlx := ResizeAxis(np, ofactor, sx, np.spreadX);
    var nly := ResizeAxis(np, ofactor, sy, np.spreadY);
    var nlz := ResizeAxis(np, ofactor, sz, np.spreadZ);
    if nlx.None? || nly.None? || nlz.None? {
      return None;
    }
    var planes := if sz > 1 then nlz.value else 1;
    RowsIsProduct(nlx.value, nly.value);
    RowsIsProduct(Rows(nlx.value, nly.value), planes);
    size := Some(planes * (nly.value * nlx.value));
  }
}
