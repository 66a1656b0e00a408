/** The walk along one axis of a noise map: which lattice cell it is in, and how far inside. */
module NoiseWalk {
  import opened NoiseValue

  datatype Walk = Walk(cell: nat, frac: real)

  function First(start: real): Walk {
    Walk(0, start - start.Floor as real)
  }

  /** One step: the next lattice cell is entered when the end of this one is reached, but never the one after it. */
  function Onward(w: Walk, step: real): Walk {
    if w.frac + step >= 1.0 then Walk(w.cell + 1, w.frac + step - 1.0) else Walk(w.cell, w.frac + step)
  }

  function WalkAt(start: real, step: real, n: nat): Walk {
    if n == 0 then First(start) else Onward(WalkAt(start, step, n - 1), step)
  }

  lemma WalkNext(start: real, step: real, n: nat)
    ensures WalkAt(start, step, n + 1) == Onward(WalkAt(start, step, n), step)
  {
  }

  /** The walk covers the distance, and counts no more cells than that. */
  lemma {:induction false} WalkCovers(start: real, step: real, n: nat)
    requires step >= 0.0
    ensures var w := WalkAt(start, step, n);
            w.cell as real + w.frac == start - start.Floor as real + Times(n, step) && w.frac >= 0.0
  {
    if n > 0 {
      WalkCovers(start, step, n - 1);
    }
  }

  lemma {:induction false} WalkInside(start: real, step: real, n: nat)
    requires 0.0 <= step <= 1.0
    ensures WalkAt(start, step, n).frac < 1.0
  {
    if n > 0 {
      WalkInside(start, step, n - 1);
    }
  }

  /** How many lattice points a walk of `size` steps from `start` needs. */
  function Points(start: real, size: nat, step: real): nat
    requires step >= 0.0
  {
    TimesMonotone(0, size, step);
    (start - start.Floor as real + Times(size, step)).Floor + 2
  }

  lemma PointsComputed(start: real, size: nat, step: real)
    requires step >= 0.0
    ensures (start - start.Floor as real + size as real * step).Floor + 2 == Points(start, size, step)
  {
    TimesIsProduct(size, step);
  }

  /** The walk over `size` steps stays below the last lattice point, however long its steps. */
  lemma WalkBound(start: real, step: real, n: nat, size: nat)
    requires n <= size && step >= 0.0
    ensures WalkAt(start, step, n).cell + 2 <= Points(start, size, step)
  {
    var w := WalkAt(start, step, n);
    WalkCovers(start, step, n);
    TimesMonotone(n, size, step);
    var last := start - start.Floor as real + Times(size, step);
    assert w.cell as real <= last;
    assert last < last.Floor as real + 1.0;
  }

  /** The lattice one axis needs, and how far its first point lies inside its first cell. */
  method Axis(start: real, size: nat, step: real) returns (origin: int, points: nat, frac: real)
    requires step >= 0.0
    ensures origin == start.Floor && points == Points(start, size, step) && WalkAt(start, step, 0) == Walk(0, frac)
  {
    origin := start.Floor;
    frac := start - origin as real;
    PointsComputed(start, size, step);
    points := (frac + size as real * step).Floor + 2;
  }

  /** After `n` steps the walk is in the cell, and as far inside, as the point it stands for. */
  ghost predicate OnPoint(start: real, step: real, n: nat) {
    var p, w := start + Times(n, step), WalkAt(start, step, n);
    p.Floor == start.Floor + w.cell && p - p.Floor as real == w.frac
  }

  lemma SmallStepsOnPoint(start: real, step: real, n: nat)
    requires 0.0 <= step && (n == 0 || step <= 1.0)
    ensures OnPoint(start, step, n)
  {
    if n > 0 {
      WalkCovers(start, step, n);
      WalkInside(start, step, n);
      FloorIs(start + Times(n, step), start.Floor + WalkAt(start, step, n).cell);
    }
  }

  /** A start from which one step that is too long leaves the walk a cell behind. */
  function LateStart(step: real): (start: real)
    requires step > 1.0
    ensures 0.0 <= start < 1.0
  {
    if step < 2.0 then 2.0 - step else 0.0
  }

  lemma LateStartFallsBehind(step: real)
    requires step > 1.0
    ensures WalkAt(LateStart(step), step, 1).frac >= 1.0 && !OnPoint(LateStart(step), step, 1)
  {
    var start := LateStart(step);
    FloorIs(start, 0);
    assert WalkAt(start, step, 1) == Onward(First(start), step);
  }

  /** The walk keeps to its points from wherever it starts exactly if its steps are not longer than a cell,
      or it does not take any. */
  lemma WalkIsExact(size: nat, step: real)
    requires step >= 0.0
    ensures (forall start, n | 0 <= n < size :: OnPoint(start, step, n)) <==> size <= 1 || step <= 1.0
  {
    if size <= 1 || step <= 1.0 {
      forall start, n | 0 <= n < size ensures OnPoint(start, step, n) {
        SmallStepsOnPoint(start, step, n);
      }
    } else {
      LateStartFallsBehind(step);
    }
  }
}
