/** CraftDefinitionShaped::check: some translation of the recipe grid covers the input grid. */
module Shaped {
  import opened Items
  import Flat

  /** The name at column x and row y of a grid read row by row; "" outside it. */
  function Cell(names: seq<string>, width: nat, x: int, y: int): string {
    if 0 <= x < width && 0 <= y && Flat.Rows(width, y) + x < |names| then names[Flat.Rows(width, y) + x] else ""
  }

  // A grid of unbounded extent: the name at each column and row, blank outside the actual cells.
  type Grid = (int, int) -> string

  ghost function GridOf(names: seq<string>, width: nat): Grid {
    (x, y) => Cell(names, width, x, y)
  }

  /** `g` is the grid that `names` spells out. */
  ghost predicate Spells(names: seq<string>, width: nat, g: Grid) {
    forall x, y {:trigger Cell(names, width, x, y)} :: Cell(names, width, x, y) == g(x, y)
  }

  // Whether an item name satisfies a recipe slot.
  type Relation = (string, string) -> bool

  ghost function SatisfiesIn(db: ItemDefs): Relation {
    (name, slot) => Satisfies(db, name, slot)
  }

  /** `sat` is what the definitions in `db` make of names. */
  ghost predicate Reflects(db: ItemDefs, sat: Relation) {
    forall name, slot {:trigger Satisfies(db, name, slot)} :: sat(name, slot) == Satisfies(db, name, slot)
  }

  /** Only a blank cell satisfies a blank slot. */
  ghost predicate BlankForBlank(sat: Relation) {
    sat("", "") && (forall name :: sat(name, "") ==> name == "")
  }

  lemma OnlyGroupsSpared(db: ItemDefs, slot: string)
    requires SatisfiesIn(db)("", slot) && slot != ""
    ensures IsGroup(slot)
  {
  }

  lemma SatisfiesBlank(db: ItemDefs)
    ensures Reflects(db, SatisfiesIn(db)) && BlankForBlank(SatisfiesIn(db))
  {
  }

  /** The cell (x, y) of the recipe is satisfied by the one it lands on. */
  ghost predicate CellFits(sat: Relation, inp: Grid, rec: Grid, dx: int, dy: int, x: int, y: int) {
    sat(inp(x + dx, y + dy), rec(x, y))
  }

  /** The recipe grid, moved by (dx, dy), is satisfied cell by cell, blank cells included. */
  ghost predicate Covers(sat: Relation, inp: Grid, rec: Grid, dx: int, dy: int) {
    forall x, y :: CellFits(sat, inp, rec, dx, dy, x, y)
  }

  datatype Box = Box(minX: int, maxX: int, minY: int, maxY: int)

  predicate Inside(b: Box, x: int, y: int) {
    b.minX <= x <= b.maxX && b.minY <= y <= b.maxY
  }

  /** `b` contains every filled cell and touches one on each side. */
  ghost predicate Bounds(g: Grid, b: Box) {
    && (forall x, y :: g(x, y) != "" ==> Inside(b, x, y))
    && (exists y :: g(b.minX, y) != "")
    && (exists y :: g(b.maxX, y) != "")
    && (exists x :: g(x, b.minY) != "")
    && (exists x :: g(x, b.maxY) != "")
  }

  ghost predicate Blank(g: Grid) {
    forall x, y :: g(x, y) == ""
  }

  lemma BoxNonEmpty(g: Grid, b: Box)
    requires Bounds(g, b)
    ensures b.minX <= b.maxX && b.minY <= b.maxY
  {
    var y :| g(b.minX, y) != "";
    var x :| g(x, b.minY) != "";
  }

  /** The filled cells of `b`, moved by (dx, dy), are filled in `a`. */
  ghost predicate Moves(a: Grid, b: Grid, dx: int, dy: int) {
    forall x, y :: b(x, y) != "" ==> a(x + dx, y + dy) != ""
  }

  /** What fills a cell of the input fills the slot under it. */
  lemma CoversMovesBack(sat: Relation, a: Grid, b: Grid, dx: int, dy: int)
    requires BlankForBlank(sat) && Covers(sat, a, b, dx, dy)
    ensures Moves(b, a, -dx, -dy)
  {
    forall x, y | a(x, y) != "" ensures b(x + -dx, y + -dy) != "" {
      assert CellFits(sat, a, b, dx, dy, x - dx, y - dy);
    }
  }

  /** The bounds reach as far as the moved bounds do. */
  lemma BoundsReach(a: Grid, ab: Box, b: Grid, bb: Box, dx: int, dy: int)
    requires Bounds(a, ab) && Bounds(b, bb) && Moves(a, b, dx, dy)
    ensures ab.minX <= bb.minX + dx && bb.maxX + dx <= ab.maxX && ab.minY <= bb.minY + dy && bb.maxY + dy <= ab.maxY
  {
    var y1 :| b(bb.minX, y1) != "";
    var y2 :| b(bb.maxX, y2) != "";
    var x1 :| b(x1, bb.minY) != "";
    var x2 :| b(x2, bb.maxY) != "";
    assert Inside(ab, bb.minX + dx, y1 + dy) && Inside(ab, bb.maxX + dx, y2 + dy);
    assert Inside(ab, x1 + dx, bb.minY + dy) && Inside(ab, x2 + dx, bb.maxY + dy);
  }

  // A choice of cells.
  type Cells = (int, int) -> bool

  /** The recipe can be met, by something, although the chosen cells stay blank. */
  ghost predicate MetWithout(sat: Relation, rec: Grid, gone: Cells) {
    && (forall x, y :: if gone(x, y) then sat("", rec(x, y)) else exists name :: sat(name, rec(x, y)))
    && exists x, y, name :: !gone(x, y) && name != "" && sat(name, rec(x, y))
  }

  ghost function OutsideOf(b: Box): Cells {
    (x, y) => !Inside(b, x, y)
  }

  ghost function JustAt(p: (int, int)): Cells {
    (x, y) => p == (x, y)
  }

  predicate Within(a: Box, b: Box) {
    b.minX <= a.minX && a.maxX <= b.maxX && b.minY <= a.minY && a.maxY <= b.maxY
  }

  /** The hand can stand in for all of an edge: the recipe can be met within a smaller box. */
  ghost predicate SparesEdge(sat: Relation, rec: Grid) {
    exists rb, b :: Bounds(rec, rb) && Within(b, rb) && b != rb && MetWithout(sat, rec, OutsideOf(b))
  }

  /** The hand can stand in for one slot. */
  ghost predicate SparesSlot(sat: Relation, rec: Grid) {
    exists p: (int, int) :: rec(p.0, p.1) != "" && MetWithout(sat, rec, JustAt(p))
  }

  lemma {:induction false} SparedEdgeHasSlot(sat: Relation, rec: Grid)
    requires SparesEdge(sat, rec) && BlankForBlank(sat)
    ensures SparesSlot(sat, rec)
  {
    var rb, b :| Bounds(rec, rb) && Within(b, rb) && b != rb && MetWithout(sat, rec, OutsideOf(b));
    var p := FilledOutside(rec, rb, b);
    forall x, y ensures if JustAt(p)(x, y) then sat("", rec(x, y)) else exists name :: sat(name, rec(x, y)) {
      assert if OutsideOf(b)(x, y) then sat("", rec(x, y)) else exists name :: sat(name, rec(x, y));
    }
    var x, y, name :| !OutsideOf(b)(x, y) && name != "" && sat(name, rec(x, y));
    assert !JustAt(p)(x, y);
    assert MetWithout(sat, rec, JustAt(p));
  }

  lemma FilledOutside(rec: Grid, rb: Box, b: Box) returns (p: (int, int))
    requires Bounds(rec, rb) && Within(b, rb) && b != rb
    ensures rec(p.0, p.1) != "" && !Inside(b, p.0, p.1)
  {
    var y1 :| rec(rb.minX, y1) != "";
    var y2 :| rec(rb.maxX, y2) != "";
    var x1 :| rec(x1, rb.minY) != "";
    var x2 :| rec(x2, rb.maxY) != "";
    p := if b.minX != rb.minX then (rb.minX, y1) else if b.maxX != rb.maxX then (rb.maxX, y2)
    else if b.minY != rb.minY then (x1, rb.minY) else (x2, rb.maxY);
  }

  function Moved(b: Box, dx: int, dy: int): Box {
    Box(b.minX + dx, b.maxX + dx, b.minY + dy, b.maxY + dy)
  }

  /** The recipe covers the input and its box comes to lie on the input's box. */
  ghost predicate CoversBoxed(sat: Relation, a: Grid, b: Grid, dx: int, dy: int) {
    Covers(sat, a, b, dx, dy) && exists bb :: Bounds(b, bb) && Bounds(a, Moved(bb, dx, dy))
  }

  /** A covering translation aligns the bounding boxes, or leaves an edge of the recipe to the hand. */
  lemma CoversAlignsBoxes(sat: Relation, a: Grid, ab: Box, b: Grid, bb: Box, dx: int, dy: int)
    requires Bounds(a, ab) && Bounds(b, bb) && BlankForBlank(sat) && Covers(sat, a, b, dx, dy)
    ensures ab == Moved(bb, dx, dy) || SparesEdge(sat, b)
  {
    CoversMovesBack(sat, a, b, dx, dy);
    BoundsReach(b, bb, a, ab, -dx, -dy);
    var small := Moved(ab, -dx, -dy);
    assert Within(small, bb);
    if small != bb {
      MetInside(sat, a, ab, b, dx, dy);
    }
  }

  lemma MetElsewhere(sat: Relation, a: Grid, b: Grid, dx: int, dy: int, p: (int, int))
    requires Covers(sat, a, b, dx, dy) && a(p.0 + dx, p.1 + dy) == "" && !Blank(a)
    ensures MetWithout(sat, b, JustAt(p))
  {
    var gone := JustAt(p);
    forall x, y ensures if gone(x, y) then sat("", b(x, y)) else exists name :: sat(name, b(x, y)) {
      assert CellFits(sat, a, b, dx, dy, x, y);
    }
    var u, v :| a(u, v) != "";
    var x, y := u - dx, v - dy;
    assert u == x + dx && v == y + dy;
    assert CellFits(sat, a, b, dx, dy, x, y) && !gone(x, y);
  }

  lemma MetInside(sat: Relation, a: Grid, ab: Box, b: Grid, dx: int, dy: int)
    requires Bounds(a, ab) && Covers(sat, a, b, dx, dy)
    ensures MetWithout(sat, b, OutsideOf(Moved(ab, -dx, -dy)))
  {
    var gone := OutsideOf(Moved(ab, -dx, -dy));
    forall x, y ensures if gone(x, y) then sat("", b(x, y)) else exists name :: sat(name, b(x, y)) {
      assert CellFits(sat, a, b, dx, dy, x, y);
    }
    var y1 :| a(ab.minX, y1) != "";
    assert CellFits(sat, a, b, dx, dy, ab.minX - dx, y1 - dy);
    assert !gone(ab.minX - dx, y1 - dy);
  }

  lemma BoundsUnique(g: Grid, b: Box, c: Box)
    requires Bounds(g, b) && Bounds(g, c)
    ensures b == c
  {
    BoundsReach(g, b, g, c, 0, 0);
    BoundsReach(g, c, g, b, 0, 0);
  }

  /** Outside the aligned boxes everything is blank, so the boxes decide. */
  lemma CoversFromBox(sat: Relation, a: Grid, ab: Box, b: Grid, bb: Box, dx: int, dy: int)
    requires Bounds(a, ab) && Bounds(b, bb) && BlankForBlank(sat)
    requires ab == Moved(bb, dx, dy)
    requires forall x, y :: Inside(bb, x, y) ==> CellFits(sat, a, b, dx, dy, x, y)
    ensures Covers(sat, a, b, dx, dy)
  {
    forall x, y
      ensures CellFits(sat, a, b, dx, dy, x, y)
    {
      if !Inside(bb, x, y) {
        assert b(x, y) == "" && a(x + dx, y + dy) == "";
      }
    }
  }

  lemma RowMajorUnique(w: nat, x: nat, y: nat, x1: nat, y1: nat)
    requires x < w && x1 < w && Flat.Rows(w, y) + x == Flat.Rows(w, y1) + x1
    ensures x == x1 && y == y1
  {
    if y < y1 {
      Flat.RowsGap(w, y, y1);
    } else if y1 < y {
      Flat.RowsGap(w, y1, y);
    }
  }

  /** One more name fills at most its own cell. */
  lemma CellOfPrefix(names: seq<string>, width: nat, i: nat, x0: int, y0: int, x: int, y: int)
    requires i < |names| && 0 <= x0 < width && 0 <= y0 && i == Flat.Rows(width, y0) + x0
    ensures Cell(names[..i + 1], width, x, y) ==
            if x == x0 && y == y0 then names[i] else Cell(names[..i], width, x, y)
  {
    if 0 <= x < width && 0 <= y && Flat.Rows(width, y) + x == i {
      RowMajorUnique(width, x, y, x0, y0);
    }
  }

  lemma CellAtIndex(names: seq<string>, width: nat, i: nat)
    requires width > 0 && i < |names|
    ensures Cell(names, width, i % width, i / width) == names[i]
  {
    Flat.RowsIsProduct(width, i / width);
  }

  function Extend(b: Box, x: int, y: int): Box {
    Box(if x < b.minX then x else b.minX, if x > b.maxX then x else b.maxX,
        if y < b.minY then y else b.minY, if y > b.maxY then y else b.maxY)
  }

  lemma BoundsExtend(g: Grid, b: Box, more: Grid, x: int, y: int)
    requires Bounds(g, b)
    requires forall u, v :: more(u, v) != "" <==> g(u, v) != "" || (u == x && v == y)
    ensures Bounds(more, Extend(b, x, y))
  {
    var y1 :| g(b.minX, y1) != "";
    var y2 :| g(b.maxX, y2) != "";
    var x1 :| g(x1, b.minY) != "";
    var x2 :| g(x2, b.maxY) != "";
    assert more(x, y) != "" && more(b.minX, y1) != "" && more(b.maxX, y2) != "";
    assert more(x1, b.minY) != "" && more(x2, b.maxY) != "";
  }

  lemma BoundsSingle(g: Grid, x: int, y: int)
    requires forall u, v :: g(u, v) != "" <==> u == x && v == y
    ensures Bounds(g, Box(x, x, y, y))
  {
    assert g(x, y) != "";
  }

  /** What the walk over the cells has established: bounds, once a filled cell was met. */
  ghost predicate Bounded(g: Grid, success: bool, b: Box) {
    if success then Bounds(g, b) else Blank(g)
  }

  lemma SameFilled(a: Grid, b: Grid, success: bool, box: Box)
    requires forall u, v :: a(u, v) == "" <==> b(u, v) == ""
    ensures Bounded(a, success, box) <==> Bounded(b, success, box)
  {
  }

  lemma BoundedStep(names: seq<string>, width: nat, i: nat, x: int, y: int, success: bool, b: Box)
    requires i < |names| && 0 <= x < width && 0 <= y && i == Flat.Rows(width, y) + x
    requires Bounded(GridOf(names[..i], width), success, b)
    ensures names[i] == "" ==> Bounded(GridOf(names[..i + 1], width), success, b)
    ensures names[i] != "" ==>
              Bounded(GridOf(names[..i + 1], width), true, if success then Extend(b, x, y) else Box(x, x, y, y))
  {
    var g, more := GridOf(names[..i], width), GridOf(names[..i + 1], width);
    forall u, v ensures more(u, v) != "" <==> g(u, v) != "" || (u == x && v == y && names[i] != "") {
      CellOfPrefix(names, width, i, x, y, u, v);
    }
    if names[i] == "" {
      SameFilled(g, more, success, b);
    } else if success {
      BoundsExtend(g, b, more, x, y);
    } else {
      BoundsSingle(more, x, y);
    }
  }

  lemma NothingBounded(names: seq<string>, width: nat, b: Box)
    requires width > 0
    ensures Flat.Rows(width, 0) == 0 && Bounded(GridOf(names[..0], width), false, b)
  {
  }

  /** craftGetBounds: the bounding rectangle of the filled cells, if there are any. */
  method CraftGetBounds(names: seq<string>, width: nat) returns (success: bool, b: Box)
    requires width > 0
    ensures Bounded(GridOf(names, width), success, b)
  {
    success := false;
    b := Box(0, 0, 0, 0);
    hide Bounded, GridOf, Flat.Rows, Extend;
    NothingBounded(names, width, b);
    var x: nat, y: nat := 0, 0;
    for i := 0 to |names|
      invariant x < width && i == Flat.Rows(width, y) + x
      invariant Bounded(GridOf(names[..i], width), success, b)
    {
      BoundedStep(names, width, i, x, y, success, b);
      NextRow(width, y);
      if names[i] != "" {
        if !success {
          b := Box(x, x, y, y);
          success := true;
        } else {
          b := Extend(b, x, y);
        }
      }
      x := x + 1;
      if x == width {
        x := 0;
        y := y + 1;
      }
    }
    assert names[..|names|] == names;
  }

  ghost predicate CompleteRows(names: seq<string>, width: nat) {
    exists rows: nat :: |names| == Flat.Rows(width, rows)
  }

  /** Fills the last row up with blanks. */
  method Pad(names: seq<string>, width: nat) returns (r: seq<string>)
    requires width > 0
    ensures CompleteRows(r, width)
    ensures forall x, y :: Cell(r, width, x, y) == Cell(names, width, x, y)
  {
    hide Flat.Rows;
    r := names;
    while |r| % width != 0
      invariant forall x, y :: Cell(r, width, x, y) == Cell(names, width, x, y)
      decreases Missing(|r|, width)
    {
      NextRemainder(|r|, width);
      r := r + [""];
    }
    Flat.RowsIsProduct(width, |r| / width);
    assert |r| == Flat.Rows(width, |r| / width);
  }

  /** How many cells the last row lacks. */
  function Missing(n: nat, w: nat): nat
    requires w > 0
  {
    if n % w == 0 then 0 else w - n % w
  }

  lemma NextRemainder(n: nat, w: nat)
    requires w > 0 && n % w != 0
    ensures Missing(n + 1, w) < Missing(n, w)
  {
    hide Flat.Rows;
    var q, k := n / w, n % w;
    Flat.RowsIsProduct(w, q);
    Remainder(n, w, q, k);
    if k + 1 == w {
      Flat.RowsGap(w, q, q + 1);
      NextRow(w, q);
      Remainder(n + 1, w, q + 1, 0);
    } else {
      Remainder(n + 1, w, q, k + 1);
    }
  }

  lemma NextRow(w: nat, q: nat)
    ensures Flat.Rows(w, q + 1) == Flat.Rows(w, q) + w
  {
  }

  lemma Remainder(n: nat, w: nat, q: nat, k: nat)
    requires w > 0 && n == Flat.Rows(w, q) + k && k < w
    ensures n / w == q && n % w == k
  {
    Flat.RowsIsProduct(w, n / w);
    RowMajorUnique(w, n % w, n / w, k, q);
  }

  // A padded grid together with the bounds of its filled cells.
  datatype Framed = Framed(names: seq<string>, width: nat, box: Box) {
    ghost predicate Of(g: Grid) {
      width > 0 && CompleteRows(names, width) && Spells(names, width, g) && Bounds(g, box)
    }
  }

  /** In a padded grid, the rows up to the last filled one are complete. */
  lemma RowInGrid(f: Framed, g: Grid, x: int, y: int)
    requires f.Of(g) && Inside(f.box, x, y)
    ensures 0 <= x < f.width && 0 <= y && Flat.Rows(f.width, y) + x < |f.names|
  {
    var b := f.box;
    var u :| g(u, b.maxY) != "";
    var v :| g(v, b.minY) != "";
    var k1 :| g(b.minX, k1) != "";
    var k2 :| g(b.maxX, k2) != "";
    assert Cell(f.names, f.width, u, b.maxY) != "" && Cell(f.names, f.width, v, b.minY) != "";
    assert Cell(f.names, f.width, b.minX, k1) != "" && Cell(f.names, f.width, b.maxX, k2) != "";
    var rows: nat :| |f.names| == Flat.Rows(f.width, rows);
    if rows < b.maxY {
      Flat.RowsGap(f.width, rows, b.maxY);
    }
    Flat.RowsGap(f.width, y, rows);
  }

  method CellAt(f: Framed, ghost g: Grid, x: int, y: int) returns (name: string)
    requires f.Of(g) && Inside(f.box, x, y)
    ensures name == g(x, y)
  {
    RowInGrid(f, g, x, y);
    Flat.RowsIsProduct(f.width, y);
    name := f.names[y * f.width + x];
    assert name == Cell(f.names, f.width, x, y);
  }

  /** Some translation of the recipe grid covers the input grid. */
  ghost predicate ShapedMatches(db: ItemDefs, input: CraftInput, recipe: seq<string>, width: nat) {
    var inp, rec := GridOf(Names(input.items), input.width), GridOf(recipe, width);
    && input.kind.Normal? && input.width > 0 && width > 0
    && !Blank(inp) && !Blank(rec)
    && exists dx, dy :: Covers(SatisfiesIn(db), inp, rec, dx, dy)
  }

  /** Some translation does that brings box onto box. */
  ghost predicate ShapedBoxed(db: ItemDefs, input: CraftInput, recipe: seq<string>, width: nat) {
    var inp, rec := GridOf(Names(input.items), input.width), GridOf(recipe, width);
    && input.kind.Normal? && input.width > 0 && width > 0
    && exists dx, dy :: CoversBoxed(SatisfiesIn(db), inp, rec, dx, dy)
  }

  function Names(items: seq<ItemStack>): (r: seq<string>)
    ensures |r| == |items| && forall i :: 0 <= i < |r| ==> r[i] == items[i].name
  {
    seq(|items|, i requires 0 <= i < |items| => items[i].name)
  }

  method ShapedCheck(db: ItemDefs, input: CraftInput, recipe: seq<string>, width: nat) returns (ok: bool)
    ensures ok <==> ShapedBoxed(db, input, recipe, width)
    ensures ok ==> ShapedMatches(db, input, recipe, width)
    ensures !SparesEdge(SatisfiesIn(db), GridOf(recipe, width)) ==> (ok <==> ShapedMatches(db, input, recipe, width))
  {
    if !input.kind.Normal? {
      return false;
    }
    if input.width == 0 {
      return false;
    }
    ghost var a, b := GridOf(Names(input.items), input.width), GridOf(recipe, width);
    var inpFound, inp := Frame(Names(input.items), input.width, a);
    if !inpFound {
      return false;
    }
    if width == 0 {
      return false;
    }
    var recFound, rec := Frame(recipe, width, b);
    if !recFound {
      return false;
    }
    ok := FramesCover(db, inp, a, rec, b, SatisfiesIn(db));
  }

  /** Pads a grid and computes its bounds; fails when it is blank. */
  method Frame(names: seq<string>, width: nat, ghost g: Grid) returns (found: bool, f: Framed)
    requires width > 0 && g == GridOf(names, width)
    ensures if found then f.Of(g) else Blank(g)
  {
    var padded := Pad(names, width);
    var b;
    found, b := CraftGetBounds(padded, width);
    SameFilled(GridOf(padded, width), g, found, b);
    f := Framed(padded, width, b);
  }

  /** Compares the two bounding boxes, in size and then cell by cell. */
  method FramesCover(db: ItemDefs, inp: Framed, ghost a: Grid, rec: Framed, ghost b: Grid, ghost sat: Relation)
    returns (ok: bool)
    requires inp.Of(a) && rec.Of(b) && Reflects(db, sat) && BlankForBlank(sat)
    ensures ok <==> exists dx, dy :: CoversBoxed(sat, a, b, dx, dy)
    ensures !SparesEdge(sat, b) && !ok ==> !exists dx, dy :: Covers(sat, a, b, dx, dy)
  {
    hide Bounds, CoversBoxed, Covers, CellFits, SparesEdge;
    var ib, rb := inp.box, rec.box;
    ghost var dx, dy := ib.minX - rb.minX, ib.minY - rb.minY;
    OnlyAligned(sat, a, ib, b, rb);
    if ib.maxX - ib.minX != rb.maxX - rb.minX || ib.maxY - ib.minY != rb.maxY - rb.minY {
      return false;
    }
    ok := BoxesMatch(db, inp, a, rec, b, sat, dx, dy);
    BoxesDecide(sat, a, ib, b, rb, dx, dy);
  }

  /** With the boxes aligned, the cells of the box decide. */
  lemma BoxesDecide(sat: Relation, a: Grid, ab: Box, b: Grid, bb: Box, dx: int, dy: int)
    requires Bounds(a, ab) && Bounds(b, bb) && BlankForBlank(sat) && ab == Moved(bb, dx, dy)
    ensures CoversBoxed(sat, a, b, dx, dy) <==> forall x, y :: Inside(bb, x, y) ==> CellFits(sat, a, b, dx, dy, x, y)
    ensures Covers(sat, a, b, dx, dy) ==> CoversBoxed(sat, a, b, dx, dy)
  {
    if forall x, y :: Inside(bb, x, y) ==> CellFits(sat, a, b, dx, dy, x, y) {
      CoversFromBox(sat, a, ab, b, bb, dx, dy);
    }
  }

  /** Only the translation that brings the one box onto the other is to be tried. */
  lemma OnlyAligned(sat: Relation, a: Grid, ab: Box, b: Grid, bb: Box)
    requires Bounds(a, ab) && Bounds(b, bb) && BlankForBlank(sat)
    ensures forall dx, dy :: CoversBoxed(sat, a, b, dx, dy) || (Covers(sat, a, b, dx, dy) && !SparesEdge(sat, b)) ==>
              ab == Moved(bb, dx, dy)
  {
    forall dx, dy | CoversBoxed(sat, a, b, dx, dy) || (Covers(sat, a, b, dx, dy) && !SparesEdge(sat, b))
      ensures ab == Moved(bb, dx, dy)
    {
      if CoversBoxed(sat, a, b, dx, dy) {
        var c :| Bounds(b, c) && Bounds(a, Moved(c, dx, dy));
        BoundsUnique(b, bb, c);
        BoundsUnique(a, ab, Moved(c, dx, dy));
      } else {
        CoversAlignsBoxes(sat, a, ab, b, bb, dx, dy);
      }
    }
  }

  method BoxesMatch(db: ItemDefs, inp: Framed, ghost a: Grid, rec: Framed, ghost b: Grid, ghost sat: Relation,
                    ghost dx: int, ghost dy: int)
    returns (ok: bool)
    requires inp.Of(a) && rec.Of(b) && Reflects(db, sat)
    requires inp.box == Moved(rec.box, dx, dy)
    requires Bounds(a, inp.box)
    ensures ok <==> forall x, y :: Inside(rec.box, x, y) ==> CellFits(sat, a, b, dx, dy, x, y)
  {
    hide FitsUpTo, CellFits, Reflects, Bounds, Framed.Of;
    var ib, rb := inp.box, rec.box;
    BoxNonEmpty(a, ib);
    var w, h := ib.maxX - ib.minX + 1, ib.maxY - ib.minY + 1;
    FitsNone(sat, a, b, dx, dy, rb);
    for y := 0 to h
      invariant FitsUpTo(sat, a, b, dx, dy, rb, 0, y)
    {
      for x := 0 to w
        invariant FitsUpTo(sat, a, b, dx, dy, rb, x, y)
      {
        var matches := CellsMatch(db, inp, a, ib.minX + x, ib.minY + y, rec, b, rb.minX + x, rb.minY + y, sat, dx, dy);
        if !matches {
          return false;
        }
        FitsOneMore(sat, a, b, dx, dy, rb, x, y);
      }
      FitsRow(sat, a, b, dx, dy, rb, y);
    }
    FitsAll(sat, a, b, dx, dy, rb);
    ok := true;
  }

  /** The cells of the box before column x of row y, counted from its corner, all fit. */
  ghost predicate FitsUpTo(sat: Relation, a: Grid, b: Grid, dx: int, dy: int, box: Box, x: int, y: int) {
    forall u, v :: Inside(box, u, v) && (v < box.minY + y || (v == box.minY + y && u < box.minX + x)) ==>
      CellFits(sat, a, b, dx, dy, u, v)
  }

  lemma FitsNone(sat: Relation, a: Grid, b: Grid, dx: int, dy: int, box: Box)
    ensures FitsUpTo(sat, a, b, dx, dy, box, 0, 0)
  {
  }

  lemma FitsOneMore(sat: Relation, a: Grid, b: Grid, dx: int, dy: int, box: Box, x: int, y: int)
    requires FitsUpTo(sat, a, b, dx, dy, box, x, y) && CellFits(sat, a, b, dx, dy, box.minX + x, box.minY + y)
    ensures FitsUpTo(sat, a, b, dx, dy, box, x + 1, y)
  {
  }

  lemma FitsRow(sat: Relation, a: Grid, b: Grid, dx: int, dy: int, box: Box, y: int)
    requires FitsUpTo(sat, a, b, dx, dy, box, box.maxX - box.minX + 1, y)
    ensures FitsUpTo(sat, a, b, dx, dy, box, 0, y + 1)
  {
  }

  lemma FitsAll(sat: Relation, a: Grid, b: Grid, dx: int, dy: int, box: Box)
    requires FitsUpTo(sat, a, b, dx, dy, box, 0, box.maxY - box.minY + 1)
    ensures forall x, y :: Inside(box, x, y) ==> CellFits(sat, a, b, dx, dy, x, y)
  {
  }

  method CellsMatch(db: ItemDefs, inp: Framed, ghost a: Grid, inpX: int, inpY: int,
                    rec: Framed, ghost b: Grid, recX: int, recY: int, ghost sat: Relation, ghost dx: int, ghost dy: int)
    returns (ok: bool)
    requires inp.Of(a) && Inside(inp.box, inpX, inpY) && rec.Of(b) && Inside(rec.box, recX, recY)
    requires inpX == recX + dx && inpY == recY + dy && Reflects(db, sat)
    ensures ok == CellFits(sat, a, b, dx, dy, recX, recY)
  {
    hide Framed.Of, Satisfies;
    var inpName := CellAt(inp, a, inpX, inpY);
    var recName := CellAt(rec, b, recX, recY);
    ok := InputItemMatchesRecipe(db, inpName, recName);
  }

  ghost predicate Named(items: seq<ItemStack>) {
    forall i :: 0 <= i < |items| ==> items[i].WellFormed()
  }

  /** An input that meets the recipe with the chosen cells blank. */
  lemma InputWithout(db: ItemDefs, recipe: seq<string>, width: nat, gone: Cells) returns (input: CraftInput)
    requires MetWithout(SatisfiesIn(db), GridOf(recipe, width), gone)
    ensures var inp := GridOf(Names(input.items), width);
            && input.kind.Normal? && input.width == width && |input.items| == |recipe| && Named(input.items)
            && Covers(SatisfiesIn(db), inp, GridOf(recipe, width), 0, 0) && !Blank(inp)
            && forall x, y :: gone(x, y) ==> inp(x, y) == ""
  {
    var sat := SatisfiesIn(db);
    assert BlankForBlank(sat);
    hide SatisfiesIn, Covers, MetWithout, Flat.Rows;
    var names := NamesWithout(sat, recipe, width, gone);
    input := CraftInput(Normal, width, seq(|names|, i requires 0 <= i < |names| =>
      ItemStack(names[i], if names[i] == "" then 0 else 1, 0, map[])));
    assert Names(input.items) == names;
  }

  /** A name that may be in a cell when the chosen ones are blank and (u, v) is not. */
  ghost predicate Stands(sat: Relation, rec: Grid, gone: Cells, x: int, y: int, u: int, v: int, name: string) {
    sat(name, rec(x, y)) && (gone(x, y) ==> name == "") && (x == u && y == v ==> name != "")
  }

  lemma NamesWithout(sat: Relation, recipe: seq<string>, width: nat, gone: Cells) returns (names: seq<string>)
    requires BlankForBlank(sat) && MetWithout(sat, GridOf(recipe, width), gone)
    ensures |names| == |recipe| && Covers(sat, GridOf(names, width), GridOf(recipe, width), 0, 0)
    ensures !Blank(GridOf(names, width)) && forall x, y :: gone(x, y) ==> Cell(names, width, x, y) == ""
  {
    hide Flat.Rows;
    var rec := GridOf(recipe, width);
    var u, v, filled :| !gone(u, v) && filled != "" && sat(filled, rec(u, v));
    names := Standing(sat, rec, gone, u, v, filled, width, |recipe|);
    StandingCovers(sat, recipe, names, width, gone, u, v);
    assert GridOf(names, width)(u, v) != "";
  }

  lemma {:induction false} Standing(sat: Relation, rec: Grid, gone: Cells, u: int, v: int, filled: string, width: nat, n: nat)
    returns (names: seq<string>)
    requires width > 0 && MetWithout(sat, rec, gone) && !gone(u, v) && filled != "" && sat(filled, rec(u, v))
    ensures |names| == n
    ensures forall k :: 0 <= k < n ==> Stands(sat, rec, gone, k % width, k / width, u, v, names[k])
  {
    if n == 0 {
      names := [];
    } else {
      var rest := Standing(sat, rec, gone, u, v, filled, width, n - 1);
      var x, y := (n - 1) % width, (n - 1) / width;
      var name := if gone(x, y) then "" else if x == u && y == v then filled else var s :| sat(s, rec(x, y)); s;
      assert Stands(sat, rec, gone, x, y, u, v, name);
      names := rest + [name];
    }
  }

  lemma StandingCovers(sat: Relation, recipe: seq<string>, names: seq<string>, width: nat, gone: Cells, u: int, v: int)
    requires width > 0 && |names| == |recipe| && sat("", "")
    requires forall k :: 0 <= k < |names| ==> Stands(sat, GridOf(recipe, width), gone, k % width, k / width, u, v, names[k])
    requires Cell(recipe, width, u, v) != ""
    ensures Covers(sat, GridOf(names, width), GridOf(recipe, width), 0, 0) && Cell(names, width, u, v) != ""
    ensures forall x, y :: gone(x, y) ==> Cell(names, width, x, y) == ""
  {
    forall x, y
      ensures sat(Cell(names, width, x, y), Cell(recipe, width, x, y))
      ensures gone(x, y) ==> Cell(names, width, x, y) == ""
      ensures x == u && y == v ==> Cell(names, width, x, y) != ""
    {
      if 0 <= x < width && 0 <= y && Flat.Rows(width, y) + x < |recipe| {
        Remainder(Flat.Rows(width, y) + x, width, y, x);
      }
    }
  }

  /** An input that lacks one slot of the recipe, a group. */
  lemma SparedInput(db: ItemDefs, recipe: seq<string>, width: nat) returns (input: CraftInput, k: nat)
    requires SparesSlot(SatisfiesIn(db), GridOf(recipe, width))
    ensures Named(input.items) && ShapedMatches(db, input, recipe, width) && |input.items| == |recipe|
    ensures k < |recipe| && Names(input.items)[k] == "" && recipe[k] != "" && IsGroup(recipe[k])
    ensures forall i :: 0 <= i < |recipe| && Names(input.items)[i] != "" ==> recipe[i] != ""
  {
    SatisfiesBlank(db);
    hide SatisfiesIn, GridOf, BlankForBlank, Reflects;
    var sat, rec := SatisfiesIn(db), GridOf(recipe, width);
    var p: (int, int) :| rec(p.0, p.1) != "" && MetWithout(sat, rec, JustAt(p));
    assert JustAt(p)(p.0, p.1);
    input := InputWithout(db, recipe, width, JustAt(p));
    FilledHasWidth(recipe, width, p.0, p.1);
    k := SparedSlot(sat, Names(input.items), recipe, width, p);
    OnlyGroupsSpared(db, recipe[k]);
  }

  /** What such an input lacks of the recipe, index by index. */
  lemma SparedSlot(sat: Relation, names: seq<string>, recipe: seq<string>, width: nat, p: (int, int)) returns (k: nat)
    requires BlankForBlank(sat) && MetWithout(sat, GridOf(recipe, width), JustAt(p)) && |names| == |recipe|
    requires Covers(sat, GridOf(names, width), GridOf(recipe, width), 0, 0)
    requires GridOf(recipe, width)(p.0, p.1) != "" && GridOf(names, width)(p.0, p.1) == ""
    ensures k < |recipe| && names[k] == "" && recipe[k] != "" && sat("", recipe[k])
    ensures forall i :: 0 <= i < |names| && names[i] != "" ==> recipe[i] != ""
  {
    k := Flat.Rows(width, p.1) + p.0;
    assert JustAt(p)(p.0, p.1);
    forall i | 0 <= i < |names| && names[i] != "" ensures recipe[i] != "" {
      CellAtIndex(names, width, i);
      CellAtIndex(recipe, width, i);
      FitsUnmoved(sat, GridOf(names, width), GridOf(recipe, width), i % width, i / width);
    }
  }

  lemma FitsUnmoved(sat: Relation, a: Grid, b: Grid, x: int, y: int)
    requires Covers(sat, a, b, 0, 0)
    ensures sat(a(x, y), b(x, y))
  {
    assert CellFits(sat, a, b, 0, 0, x, y);
  }

  /** A recipe that spares an edge is missed on some input that it covers; all others are always found. */
  lemma CheckIsExact(db: ItemDefs, recipe: seq<string>, width: nat)
    ensures (forall input :: ShapedBoxed(db, input, recipe, width) <==> ShapedMatches(db, input, recipe, width)) <==>
            !SparesEdge(SatisfiesIn(db), GridOf(recipe, width))
  {
    var sat, rec := SatisfiesIn(db), GridOf(recipe, width);
    if SparesEdge(sat, rec) {
      var input := MissedInput(db, recipe, width);
    } else {
      forall input ensures ShapedBoxed(db, input, recipe, width) <==> ShapedMatches(db, input, recipe, width) {
        BoxedUnlessSpared(db, input, recipe, width);
      }
    }
  }

  lemma MissedInput(db: ItemDefs, recipe: seq<string>, width: nat) returns (input: CraftInput)
    requires SparesEdge(SatisfiesIn(db), GridOf(recipe, width))
    ensures Named(input.items) && ShapedMatches(db, input, recipe, width) && !ShapedBoxed(db, input, recipe, width)
  {
    SatisfiesBlank(db);
    hide SatisfiesIn, GridOf, BlankForBlank, Reflects, OutsideOf;
    var sat, rec := SatisfiesIn(db), GridOf(recipe, width);
    var rb, b :| Bounds(rec, rb) && Within(b, rb) && b != rb && MetWithout(sat, rec, OutsideOf(b));
    input := InputWithout(db, recipe, width, OutsideOf(b));
    BoxTooWide(sat, GridOf(Names(input.items), width), rec, rb, b);
    var y :| rec(rb.minX, y) != "";
    FilledHasWidth(recipe, width, rb.minX, y);
  }

  lemma FilledHasWidth(recipe: seq<string>, width: nat, x: int, y: int)
    requires GridOf(recipe, width)(x, y) != ""
    ensures width > 0 && !Blank(GridOf(recipe, width))
  {
  }

  /** What is filled only within a smaller box cannot be covered box by box. */
  lemma BoxTooWide(sat: Relation, inp: Grid, rec: Grid, rb: Box, b: Box)
    requires Bounds(rec, rb) && Within(b, rb) && b != rb
    requires forall x, y :: OutsideOf(b)(x, y) ==> inp(x, y) == ""
    ensures !exists dx, dy :: CoversBoxed(sat, inp, rec, dx, dy)
  {
    forall dx, dy | CoversBoxed(sat, inp, rec, dx, dy) ensures false {
      var c :| Bounds(rec, c) && Bounds(inp, Moved(c, dx, dy));
      BoundsUnique(rec, rb, c);
      TooNarrow(inp, Moved(rb, dx, dy), b);
    }
  }

  lemma TooNarrow(g: Grid, gb: Box, b: Box)
    requires Bounds(g, gb) && forall x, y :: OutsideOf(b)(x, y) ==> g(x, y) == ""
    ensures Within(gb, b)
  {
    var y1 :| g(gb.minX, y1) != "";
    var y2 :| g(gb.maxX, y2) != "";
    var x1 :| g(x1, gb.minY) != "";
    var x2 :| g(x2, gb.maxY) != "";
    assert !OutsideOf(b)(gb.minX, y1) && !OutsideOf(b)(gb.maxX, y2) && !OutsideOf(b)(x1, gb.minY) && !OutsideOf(b)(x2, gb.maxY);
  }

  lemma BoxedUnlessSpared(db: ItemDefs, input: CraftInput, recipe: seq<string>, width: nat)
    requires !SparesEdge(SatisfiesIn(db), GridOf(recipe, width))
    ensures ShapedBoxed(db, input, recipe, width) <==> ShapedMatches(db, input, recipe, width)
  {
    var sat, inp, rec := SatisfiesIn(db), GridOf(Names(input.items), input.width), GridOf(recipe, width);
    if ShapedMatches(db, input, recipe, width) {
      var ab := BoundsExist(Names(input.items), input.width);
      var bb := BoundsExist(recipe, width);
      OnlyAligned(sat, inp, ab, rec, bb);
      var dx, dy :| Covers(sat, inp, rec, dx, dy);
      assert CoversBoxed(sat, inp, rec, dx, dy);
    }
    if ShapedBoxed(db, input, recipe, width) {
      BoxedMatches(db, input, recipe, width);
    }
  }

  lemma BoxedMatches(db: ItemDefs, input: CraftInput, recipe: seq<string>, width: nat)
    ensures ShapedBoxed(db, input, recipe, width) ==> ShapedMatches(db, input, recipe, width)
  {
    var sat, inp, rec := SatisfiesIn(db), GridOf(Names(input.items), input.width), GridOf(recipe, width);
    if ShapedBoxed(db, input, recipe, width) {
      var dx, dy :| CoversBoxed(sat, inp, rec, dx, dy);
      var bb :| Bounds(rec, bb) && Bounds(inp, Moved(bb, dx, dy));
      var y1 :| rec(bb.minX, y1) != "";
      var y2 :| inp(Moved(bb, dx, dy).minX, y2) != "";
    }
  }

  lemma BoundsExist(names: seq<string>, width: nat) returns (b: Box)
    requires width > 0 && !Blank(GridOf(names, width))
    ensures Bounds(GridOf(names, width), b)
  {
    var success;
    success, b := BoundsOfPrefix(names, width, |names|);
    assert names[..|names|] == names;
  }

  lemma {:induction false} BoundsOfPrefix(names: seq<string>, width: nat, n: nat) returns (success: bool, b: Box)
    requires width > 0 && n <= |names|
    ensures Bounded(GridOf(names[..n], width), success, b)
  {
    if n == 0 {
      success, b := false, Box(0, 0, 0, 0);
    } else {
      success, b := BoundsOfPrefix(names, width, n - 1);
      var x, y := (n - 1) % width, (n - 1) / width;
      Flat.RowsIsProduct(width, y);
      BoundedStep(names, width, n - 1, x, y, success, b);
      if names[n - 1] != "" {
        success, b := true, if success then Extend(b, x, y) else Box(x, x, y, y);
      }
    }
  }

  /** The hand as the builtin game registers it can stand in for the group it is in. */
  lemma BuiltinHand() returns (db: ItemDefs, recipe: seq<string>, input: CraftInput)
    ensures db == ItemDefs(map["" := ItemDef(map["not_in_creative_inventory" := 1], false, 1)], map[])
    ensures recipe == ["a", GROUP_PREFIX + "not_in_creative_inventory"] && Named(input.items)
    ensures ShapedMatches(db, input, recipe, 2) && !ShapedBoxed(db, input, recipe, 2)
  {
    db := ItemDefs(map["" := ItemDef(map["not_in_creative_inventory" := 1], false, 1)], map[]);
    recipe := ["a", GROUP_PREFIX + "not_in_creative_inventory"];
    HandInGroup(db, "not_in_creative_inventory");
    var sat := SatisfiesIn(db);
    assert BlankForBlank(sat) && sat(recipe[0], recipe[0]) && sat("", recipe[1]);
    hide *;
    SparesSecond(sat, recipe);
    input := MissedInput(db, recipe, 2);
  }

  lemma HandInGroup(db: ItemDefs, g: string)
    requires db.IsKnown("") && db.GroupOf("", g) != 0 && ',' !in g
    ensures Satisfies(db, "", GROUP_PREFIX + g)
  {
    SplitSingle(g);
    assert (GROUP_PREFIX + g)[6..] == g;
  }

  lemma SparesSecond(sat: Relation, recipe: seq<string>)
    requires |recipe| == 2 && recipe[0] != "" && recipe[1] != "" && BlankForBlank(sat)
    requires sat(recipe[0], recipe[0]) && sat("", recipe[1])
    ensures SparesEdge(sat, GridOf(recipe, 2))
  {
    var rec, b := GridOf(recipe, 2), Box(0, 0, 0, 0);
    TwoCells(recipe);
    hide GridOf;
    assert rec(0, 0) != "" && rec(1, 0) != "";
    assert Bounds(rec, Box(0, 1, 0, 0));
    assert sat(recipe[0], rec(0, 0)) && !OutsideOf(b)(0, 0);
    assert MetWithout(sat, rec, OutsideOf(b));
  }

  lemma TwoCells(recipe: seq<string>)
    requires |recipe| == 2
    ensures forall x, y :: GridOf(recipe, 2)(x, y) ==
              if x == 0 && y == 0 then recipe[0] else if x == 1 && y == 0 then recipe[1] else ""
  {
    forall x, y
      ensures Cell(recipe, 2, x, y) == if x == 0 && y == 0 then recipe[0] else if x == 1 && y == 0 then recipe[1] else ""
    {
      if y > 0 { Flat.RowsGap(2, 0, y); }
    }
  }
}
