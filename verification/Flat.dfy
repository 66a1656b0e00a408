/** Grids stored row by row, plane by plane. */
module Flat {
  /** n * w, by repeated addition. */
  function Rows(w: nat, n: nat): nat {
    if n == 0 then 0 else Rows(w, n - 1) + w
  }

  lemma {:induction false} RowsIsProduct(w: nat, n: nat)
    ensures Rows(w, n) == n * w
  {
    if n > 0 {
      RowsIsProduct(w, n - 1);
    }
  }

  lemma {:induction false} RowsGap(w: nat, m: nat, n: nat)
    requires m < n
    ensures Rows(w, m) + w <= Rows(w, n)
    decreases n
  {
    if m + 1 < n {
      RowsGap(w, m, n - 1);
    }
  }

  lemma {:induction false} RowsMonotone(w: nat, n: nat, w1: nat, n1: nat)
    requires w <= w1 && n <= n1
    ensures Rows(w, n) <= Rows(w1, n1)
    decreases n1
  {
    if n1 > 0 {
      RowsMonotone(w, if n == n1 then n - 1 else n, w1, n1 - 1);
    }
  }

  type Cells2 = (nat, nat) -> real
  type Cells3 = (nat, nat, nat) -> real

  ghost function Line(w: nat, j: nat, f: Cells2): (s: seq<real>)
    ensures |s| == w && forall i :: 0 <= i < w ==> s[i] == f(i, j)
  {
    seq(w, i requires 0 <= i < w => f(i, j))
  }

  lemma LineSnoc(w: nat, j: nat, f: Cells2)
    ensures Line(w + 1, j, f) == Line(w, j, f) + [f(w, j)]
  {
  }

  ghost function Flat2(w: nat, h: nat, f: Cells2): (s: seq<real>)
    ensures |s| == Rows(w, h)
  {
    if h == 0 then [] else Flat2(w, h - 1, f) + Line(w, h - 1, f)
  }

  lemma {:induction false} Flat2At(w: nat, h: nat, f: Cells2, i: nat, j: nat)
    requires i < w && j < h
    ensures Rows(w, j) + i < Rows(w, h) && Flat2(w, h, f)[Rows(w, j) + i] == f(i, j)
    decreases h
  {
    RowsGap(w, j, h);
    if j < h - 1 {
      Flat2At(w, h - 1, f, i, j);
    }
  }

  ghost function Plane(k: nat, f: Cells3): Cells2 {
    (i: nat, j: nat) => f(i, j, k)
  }

  ghost function Flat3(w: nat, h: nat, d: nat, f: Cells3): (s: seq<real>)
    ensures |s| == Rows(Rows(w, h), d)
  {
    if d == 0 then [] else Flat3(w, h, d - 1, f) + Flat2(w, h, Plane(d - 1, f))
  }

  lemma {:induction false} Flat3At(w: nat, h: nat, d: nat, f: Cells3, i: nat, j: nat, k: nat)
    requires i < w && j < h && k < d
    ensures Rows(Rows(w, h), k) + Rows(w, j) + i < Rows(Rows(w, h), d)
    ensures Flat3(w, h, d, f)[Rows(Rows(w, h), k) + Rows(w, j) + i] == f(i, j, k)
    decreases d
  {
    RowsGap(Rows(w, h), k, d);
    Flat2At(w, h, Plane(k, f), i, j);
    if k < d - 1 {
      Flat3At(w, h, d - 1, f, i, j, k);
    }
  }
}
