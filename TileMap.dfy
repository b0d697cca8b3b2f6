/**
 * The editor's tile grid and its two auto-tiling edits (src/plug.c).
 *
 * The specification side works on a grid value (a sequence of rows); the
 * class Plug keeps the grid in a two-dimensional array and performs the
 * edits in place, cell by cell, as `plug_update` does, and each of its
 * methods is proved to leave the array equal to the specification's result.
 */
module TileMap {
  import opened Tiles

  /** Cell (x, y) lies on the grid: x is the column, y the row. */
  predicate InBounds(x: int, y: int) { 0 <= x < TILESX && 0 <= y < TILESY }

  predicate WellShaped(g: seq<seq<int>>)
  {
    |g| == TILESY && forall r | 0 <= r < |g| :: |g[r]| == TILESX
  }

  /** A grid value, row-major like `int tilemap[TILESY][TILESX]`. */
  type Grid = g: seq<seq<int>> | WellShaped(g) witness Blank()

  /** The grid with every cell BLOCK_EMPTY. */
  function Blank(): (g: seq<seq<int>>)
    ensures WellShaped(g)
  {
    seq(TILESY, _ => seq(TILESX, _ => BLOCK_EMPTY))
  }

  function At(g: Grid, x: int, y: int): int
    requires InBounds(x, y)
  {
    g[y][x]
  }

  /** The grid with cell (x, y) replaced by v. */
  function Put(g: Grid, x: int, y: int, v: int): (r: Grid)
    requires InBounds(x, y)
  {
    g[y := g[y][x := v]]
  }

  /** Column and row of the neighbour of (x, y) in direction d (it may be off the grid). */
  function NX(x: int, d: Dir): int
  {
    match d
    case Left => x - 1
    case Right => x + 1
    case _ => x
  }

  function NY(y: int, d: Dir): int
  {
    match d
    case Top => y - 1
    case Bottom => y + 1
    case _ => y
  }

  predicate HasNeighbour(x: int, y: int, d: Dir)
  {
    InBounds(NX(x, d), NY(y, d))
  }

  /** (a, b) is one of the four orthogonal neighbours of (x, y). */
  predicate Adjacent(a: int, b: int, x: int, y: int)
  {
    (a == x && (b == y - 1 || b == y + 1)) || (b == y && (a == x - 1 || a == x + 1))
  }

  /** The neighbour of (x, y) in direction d exists and holds a ground code. */
  predicate Linked(g: Grid, x: int, y: int, d: Dir)
  {
    HasNeighbour(x, y, d) && IsGround(At(g, NX(x, d), NY(y, d)))
  }

  // ---------------------------------------------------------------------
  // The edits, step for step as plug_update performs them.
  // ---------------------------------------------------------------------

  /**
   * One neighbour test of the left-button branch: when the neighbour in
   * direction d is ground, either the cell and the neighbour gain the two
   * facing bits (the cell is non-empty) or the neighbour loses its facing bit.
   */
  function Link(g: Grid, x: int, y: int, d: Dir): Grid
    requires InBounds(x, y)
  {
    if Linked(g, x, y, d) then
      var nx, ny := NX(x, d), NY(y, d);
      if At(g, x, y) != BLOCK_EMPTY then
        Put(Put(g, x, y, SetDir(At(g, x, y), d)), nx, ny, SetDir(At(g, nx, ny), Opposite(d)))
      else
        Put(g, nx, ny, ClearDir(At(g, nx, ny), Opposite(d)))
    else
      g
  }

  /** The left-button edit: write BLOCK_MIDDLE (filled) or BLOCK_EMPTY, then below, above, left, right. */
  function GroundEdit(g: Grid, x: int, y: int, filled: bool): Grid
    requires InBounds(x, y)
  {
    var g0 := Put(g, x, y, if filled then BLOCK_MIDDLE else BLOCK_EMPTY);
    Link(Link(Link(Link(g0, x, y, Bottom), x, y, Top), x, y, Left), x, y, Right)
  }

  /** One neighbour update of the right-button branch: AND out the bit facing the cell. */
  function Unlink(g: Grid, x: int, y: int, d: Dir): Grid
    requires InBounds(x, y)
  {
    if HasNeighbour(x, y, d) then
      var nx, ny := NX(x, d), NY(y, d);
      Put(g, nx, ny, ClearDir(At(g, nx, ny), Opposite(d)))
    else
      g
  }

  /** The right-button edit: write id, then clear the facing bit below, above, left, right. */
  function FunctionalEdit(g: Grid, x: int, y: int, id: int): Grid
    requires InBounds(x, y)
  {
    var g0 := Put(g, x, y, id);
    Unlink(Unlink(Unlink(Unlink(g0, x, y, Bottom), x, y, Top), x, y, Left), x, y, Right)
  }

  // ---------------------------------------------------------------------
  // The connectivity invariant.
  // ---------------------------------------------------------------------

  /**
   * A cell is empty, functional, or a ground code with bit 0 whose connector
   * bits say exactly which neighbours are ground.
   */
  ghost predicate CellOk(g: Grid, x: int, y: int)
    requires InBounds(x, y)
  {
    var v := At(g, x, y);
    v == BLOCK_EMPTY || v >= BLOCK_BOX ||
    (0 < v < BLOCK_BOX && HasMiddle(v) && forall d: Dir :: Has(v, d) == Linked(g, x, y, d))
  }

  ghost predicate Connected(g: Grid)
  {
    forall x, y | InBounds(x, y) :: CellOk(g, x, y)
  }

  // ---------------------------------------------------------------------
  // Geometry of neighbours.
  // ---------------------------------------------------------------------

  lemma AtPut(g: Grid, x: int, y: int, v: int, a: int, b: int)
    requires InBounds(x, y) && InBounds(a, b)
    ensures At(Put(g, x, y, v), a, b) == if a == x && b == y then v else At(g, a, b)
  {
  }

  /** The neighbour in direction d is adjacent, differs from the cell, and sees the cell in the opposite direction. */
  lemma NeighbourFacts(x: int, y: int, d: Dir)
    ensures Adjacent(NX(x, d), NY(y, d), x, y)
    ensures NX(NX(x, d), Opposite(d)) == x && NY(NY(y, d), Opposite(d)) == y
  {
  }

  lemma NeighboursDistinct(x: int, y: int, d: Dir, e: Dir)
    requires d != e
    ensures NX(x, d) != NX(x, e) || NY(y, d) != NY(y, e)
  {
  }

  /** An adjacent cell is the neighbour in exactly one direction. */
  lemma AdjacentDir(a: int, b: int, x: int, y: int) returns (d: Dir)
    requires Adjacent(a, b, x, y)
    ensures a == NX(x, d) && b == NY(y, d)
  {
    if a == x && b == y - 1 { d := Top; }
    else if a == x && b == y + 1 { d := Bottom; }
    else if a == x - 1 { d := Left; }
    else { d := Right; }
  }

  // ---------------------------------------------------------------------
  // What one neighbour step does.
  // ---------------------------------------------------------------------

  /** What an edit does to a neighbour: a ground neighbour gains or loses its facing bit, any other keeps its code. */
  function Reciprocal(v: int, e: Dir, gain: bool): int
  {
    if IsGround(v) then (if gain then SetDir(v, e) else ClearDir(v, e)) else v
  }

  lemma LinkEffect(g: Grid, x: int, y: int, d: Dir)
    requires InBounds(x, y)
    ensures var r := Link(g, x, y, d);
      && At(r, x, y) == (if Linked(g, x, y, d) && At(g, x, y) != BLOCK_EMPTY then SetDir(At(g, x, y), d) else At(g, x, y))
      && (HasNeighbour(x, y, d) ==>
            At(r, NX(x, d), NY(y, d)) == Reciprocal(At(g, NX(x, d), NY(y, d)), Opposite(d), At(g, x, y) != BLOCK_EMPTY))
      && (forall a, b | InBounds(a, b) && !(a == x && b == y) && !(a == NX(x, d) && b == NY(y, d)) ::
            At(r, a, b) == At(g, a, b))
  {
  }

  lemma UnlinkEffect(g: Grid, x: int, y: int, d: Dir)
    requires InBounds(x, y)
    ensures var r := Unlink(g, x, y, d);
      && (HasNeighbour(x, y, d) ==>
            At(r, NX(x, d), NY(y, d)) == ClearDir(At(g, NX(x, d), NY(y, d)), Opposite(d)))
      && (forall a, b | InBounds(a, b) && !(a == NX(x, d) && b == NY(y, d)) :: At(r, a, b) == At(g, a, b))
  {
  }

  // ---------------------------------------------------------------------
  // What the left-button edit does, stated cell by cell.
  // ---------------------------------------------------------------------

  /** Facts about the four intermediate grids of GroundEdit, as seen from the neighbour in direction d. */
  lemma {:induction false} GroundEditSteps(g: Grid, x: int, y: int, filled: bool, d: Dir)
    requires InBounds(x, y)
    ensures var g0 := Put(g, x, y, if filled then BLOCK_MIDDLE else BLOCK_EMPTY);
      var g1 := Link(g0, x, y, Bottom);
      var g2 := Link(g1, x, y, Top);
      var g3 := Link(g2, x, y, Left);
      && (At(g0, x, y) != BLOCK_EMPTY <==> filled)
      && (At(g1, x, y) != BLOCK_EMPTY <==> filled)
      && (At(g2, x, y) != BLOCK_EMPTY <==> filled)
      && (At(g3, x, y) != BLOCK_EMPTY <==> filled)
      && (HasNeighbour(x, y, d) ==>
            var n := At(g, NX(x, d), NY(y, d));
            && (d == Bottom ==> At(g0, NX(x, d), NY(y, d)) == n)
            && (d == Top ==> At(g1, NX(x, d), NY(y, d)) == n)
            && (d == Left ==> At(g2, NX(x, d), NY(y, d)) == n)
            && (d == Right ==> At(g3, NX(x, d), NY(y, d)) == n))
  {
    var g0 := Put(g, x, y, if filled then BLOCK_MIDDLE else BLOCK_EMPTY);
    var g1 := Link(g0, x, y, Bottom);
    var g2 := Link(g1, x, y, Top);
    var g3 := Link(g2, x, y, Left);
    LinkEffect(g0, x, y, Bottom);
    LinkEffect(g1, x, y, Top);
    LinkEffect(g2, x, y, Left);
    if filled {
      SetDirKeepsGround(At(g0, x, y), Bottom);
      SetDirKeepsGround(At(g1, x, y), Top);
      SetDirKeepsGround(At(g2, x, y), Left);
    }
    if HasNeighbour(x, y, d) {
      NeighbourFacts(x, y, d);
      AtPut(g, x, y, if filled then BLOCK_MIDDLE else BLOCK_EMPTY, NX(x, d), NY(y, d));
      if d != Bottom { NeighboursDistinct(x, y, d, Bottom); }
      if d != Top { NeighboursDistinct(x, y, d, Top); }
      if d != Left { NeighboursDistinct(x, y, d, Left); }
    }
  }

  /** The edited cell ends as BLOCK_MIDDLE with exactly the bits of its ground neighbours, or empty when erasing. */
  lemma {:induction false} GroundEditCell(g: Grid, x: int, y: int, filled: bool)
    requires InBounds(x, y)
    ensures At(GroundEdit(g, x, y, filled), x, y) ==
      if filled then GroundCode(Linked(g, x, y, Left), Linked(g, x, y, Top), Linked(g, x, y, Right), Linked(g, x, y, Bottom))
      else BLOCK_EMPTY
  {
    var g0 := Put(g, x, y, if filled then BLOCK_MIDDLE else BLOCK_EMPTY);
    var g1 := Link(g0, x, y, Bottom);
    var g2 := Link(g1, x, y, Top);
    var g3 := Link(g2, x, y, Left);
    var g4 := Link(g3, x, y, Right);
    LinkEffect(g0, x, y, Bottom);
    LinkEffect(g1, x, y, Top);
    LinkEffect(g2, x, y, Left);
    LinkEffect(g3, x, y, Right);
    GroundEditSteps(g, x, y, filled, Bottom);
    GroundEditSteps(g, x, y, filled, Top);
    GroundEditSteps(g, x, y, filled, Left);
    GroundEditSteps(g, x, y, filled, Right);
    var bottom, top, left, right := Linked(g, x, y, Bottom), Linked(g, x, y, Top), Linked(g, x, y, Left), Linked(g, x, y, Right);
    assert Linked(g0, x, y, Bottom) == bottom;
    assert Linked(g1, x, y, Top) == top;
    assert Linked(g2, x, y, Left) == left;
    assert Linked(g3, x, y, Right) == right;
    if filled {
      assert At(g0, x, y) == GroundCode(false, false, false, false);
      assert At(g1, x, y) == GroundCode(false, false, false, bottom);
      assert At(g2, x, y) == GroundCode(false, top, false, bottom);
      assert At(g3, x, y) == GroundCode(left, top, false, bottom);
      assert At(g4, x, y) == GroundCode(left, top, right, bottom);
    }
  }

  /** Each in-bounds neighbour: a ground one gains (filling) or loses (erasing) only the bit facing the cell; any other keeps its code. */
  lemma {:induction false} GroundEditNeighbour(g: Grid, x: int, y: int, filled: bool, d: Dir)
    requires InBounds(x, y) && HasNeighbour(x, y, d)
    ensures At(GroundEdit(g, x, y, filled), NX(x, d), NY(y, d)) ==
      Reciprocal(At(g, NX(x, d), NY(y, d)), Opposite(d), filled)
  {
    var g0 := Put(g, x, y, if filled then BLOCK_MIDDLE else BLOCK_EMPTY);
    var g1 := Link(g0, x, y, Bottom);
    var g2 := Link(g1, x, y, Top);
    var g3 := Link(g2, x, y, Left);
    LinkEffect(g0, x, y, Bottom);
    LinkEffect(g1, x, y, Top);
    LinkEffect(g2, x, y, Left);
    LinkEffect(g3, x, y, Right);
    GroundEditSteps(g, x, y, filled, d);
    NeighbourFacts(x, y, d);
    if d != Bottom { NeighboursDistinct(x, y, d, Bottom); }
    if d != Top { NeighboursDistinct(x, y, d, Top); }
    if d != Left { NeighboursDistinct(x, y, d, Left); }
    if d != Right { NeighboursDistinct(x, y, d, Right); }
  }

  /** The edit changes at most five cells: the edited cell and its in-bounds neighbours. */
  lemma {:induction false} GroundEditFrame(g: Grid, x: int, y: int, filled: bool, a: int, b: int)
    requires InBounds(x, y) && InBounds(a, b)
    requires !(a == x && b == y) && !Adjacent(a, b, x, y)
    ensures At(GroundEdit(g, x, y, filled), a, b) == At(g, a, b)
  {
    var g0 := Put(g, x, y, if filled then BLOCK_MIDDLE else BLOCK_EMPTY);
    var g1 := Link(g0, x, y, Bottom);
    var g2 := Link(g1, x, y, Top);
    var g3 := Link(g2, x, y, Left);
    AtPut(g, x, y, if filled then BLOCK_MIDDLE else BLOCK_EMPTY, a, b);
    LinkEffect(g0, x, y, Bottom);
    LinkEffect(g1, x, y, Top);
    LinkEffect(g2, x, y, Left);
    LinkEffect(g3, x, y, Right);
    NeighbourFacts(x, y, Bottom);
    NeighbourFacts(x, y, Top);
    NeighbourFacts(x, y, Left);
    NeighbourFacts(x, y, Right);
  }

  // ---------------------------------------------------------------------
  // What the right-button edit does, stated cell by cell.
  // ---------------------------------------------------------------------

  /** The edited cell holds id; every in-bounds neighbour, whatever its kind, loses only the bit facing the cell. */
  lemma {:induction false} FunctionalEditEffect(g: Grid, x: int, y: int, id: int, d: Dir)
    requires InBounds(x, y)
    ensures At(FunctionalEdit(g, x, y, id), x, y) == id
    ensures HasNeighbour(x, y, d) ==>
      At(FunctionalEdit(g, x, y, id), NX(x, d), NY(y, d)) == ClearDir(At(g, NX(x, d), NY(y, d)), Opposite(d))
  {
    var g0 := Put(g, x, y, id);
    var g1 := Unlink(g0, x, y, Bottom);
    var g2 := Unlink(g1, x, y, Top);
    var g3 := Unlink(g2, x, y, Left);
    UnlinkEffect(g0, x, y, Bottom);
    UnlinkEffect(g1, x, y, Top);
    UnlinkEffect(g2, x, y, Left);
    UnlinkEffect(g3, x, y, Right);
    NeighbourFacts(x, y, Bottom);
    NeighbourFacts(x, y, Top);
    NeighbourFacts(x, y, Left);
    NeighbourFacts(x, y, Right);
    if HasNeighbour(x, y, d) {
      AtPut(g, x, y, id, NX(x, d), NY(y, d));
      if d != Bottom { NeighboursDistinct(x, y, d, Bottom); }
      if d != Top { NeighboursDistinct(x, y, d, Top); }
      if d != Left { NeighboursDistinct(x, y, d, Left); }
      if d != Right { NeighboursDistinct(x, y, d, Right); }
    }
  }

  /** The right-button edit changes at most five cells too. */
  lemma {:induction false} FunctionalEditFrame(g: Grid, x: int, y: int, id: int, a: int, b: int)
    requires InBounds(x, y) && InBounds(a, b)
    requires !(a == x && b == y) && !Adjacent(a, b, x, y)
    ensures At(FunctionalEdit(g, x, y, id), a, b) == At(g, a, b)
  {
    var g0 := Put(g, x, y, id);
    var g1 := Unlink(g0, x, y, Bottom);
    var g2 := Unlink(g1, x, y, Top);
    var g3 := Unlink(g2, x, y, Left);
    AtPut(g, x, y, id, a, b);
    UnlinkEffect(g0, x, y, Bottom);
    UnlinkEffect(g1, x, y, Top);
    UnlinkEffect(g2, x, y, Left);
    UnlinkEffect(g3, x, y, Right);
    NeighbourFacts(x, y, Bottom);
    NeighbourFacts(x, y, Top);
    NeighbourFacts(x, y, Left);
    NeighbourFacts(x, y, Right);
  }

  // ---------------------------------------------------------------------
  // Both edits preserve the connectivity invariant.
  // ---------------------------------------------------------------------

  /** The only neighbour of (a, b) that is the cell (x, y) is the one in the opposite direction. */
  lemma NeighbourIsCell(x: int, y: int, d: Dir, e: Dir)
    requires NX(NX(x, d), e) == x && NY(NY(y, d), e) == y
    ensures e == Opposite(d)
  {
  }

  /** A cell whose neighbour is (x, y) is adjacent to (x, y). */
  lemma NeighbourMeansAdjacent(a: int, b: int, e: Dir, x: int, y: int)
    requires NX(a, e) == x && NY(b, e) == y
    ensures Adjacent(a, b, x, y)
  {
  }

  /** The code classes the invariant allows: empty, functional, or ground with bit 0. */
  predicate Classified(v: int)
  {
    v == BLOCK_EMPTY || v >= BLOCK_BOX || (0 < v < BLOCK_BOX && HasMiddle(v))
  }

  /** Neither kind of neighbour update changes whether a classified code is ground. */
  lemma NeighbourUpdateKeepsGroundness(v: int, e: Dir, gain: bool)
    requires Classified(v)
    ensures IsGround(Reciprocal(v, e, gain)) == IsGround(v)
    ensures IsGround(ClearDir(v, e)) == IsGround(v)
  {
    if IsGround(v) {
      SetDirKeepsGround(v, e);
      ClearDirKeepsGround(v, e);
    } else if v >= BLOCK_BOX {
      ClearDirKeepsFunctional(v, e);
    }
  }

  lemma {:induction false} GroundEditKeepsGroundness(g: Grid, x: int, y: int, filled: bool, a: int, b: int)
    requires Connected(g) && InBounds(x, y) && InBounds(a, b) && !(a == x && b == y)
    ensures IsGround(At(GroundEdit(g, x, y, filled), a, b)) == IsGround(At(g, a, b))
  {
    var r := GroundEdit(g, x, y, filled);
    if Adjacent(a, b, x, y) {
      var d := AdjacentDir(a, b, x, y);
      GroundEditNeighbour(g, x, y, filled, d);
      assert CellOk(g, a, b);
      NeighbourUpdateKeepsGroundness(At(g, a, b), Opposite(d), filled);
    } else {
      GroundEditFrame(g, x, y, filled, a, b);
    }
  }

  lemma {:induction false} FunctionalEditKeepsGroundness(g: Grid, x: int, y: int, id: int, a: int, b: int)
    requires Connected(g) && InBounds(x, y) && InBounds(a, b) && !(a == x && b == y)
    ensures IsGround(At(FunctionalEdit(g, x, y, id), a, b)) == IsGround(At(g, a, b))
  {
    var r := FunctionalEdit(g, x, y, id);
    if Adjacent(a, b, x, y) {
      var d := AdjacentDir(a, b, x, y);
      FunctionalEditEffect(g, x, y, id, d);
      assert CellOk(g, a, b);
      NeighbourUpdateKeepsGroundness(At(g, a, b), Opposite(d), false);
    } else {
      FunctionalEditFrame(g, x, y, id, a, b);
    }
  }

  /** A neighbour's Linked status is unchanged when the neighbour is not the edited cell and kept its groundness. */
  lemma {:induction false} GroundEditKeepsLinked(g: Grid, x: int, y: int, filled: bool, a: int, b: int, e: Dir)
    requires Connected(g) && InBounds(x, y) && InBounds(a, b)
    requires !(NX(a, e) == x && NY(b, e) == y)
    ensures Linked(GroundEdit(g, x, y, filled), a, b, e) == Linked(g, a, b, e)
  {
    if HasNeighbour(a, b, e) {
      GroundEditKeepsGroundness(g, x, y, filled, NX(a, e), NY(b, e));
    }
  }

  lemma {:induction false} FunctionalEditKeepsLinked(g: Grid, x: int, y: int, id: int, a: int, b: int, e: Dir)
    requires Connected(g) && InBounds(x, y) && InBounds(a, b)
    requires !(NX(a, e) == x && NY(b, e) == y)
    ensures Linked(FunctionalEdit(g, x, y, id), a, b, e) == Linked(g, a, b, e)
  {
    if HasNeighbour(a, b, e) {
      FunctionalEditKeepsGroundness(g, x, y, id, NX(a, e), NY(b, e));
    }
  }

  /** After the left-button edit, every cell still satisfies the invariant. */
  lemma {:induction false} GroundEditKeepsCellOk(g: Grid, x: int, y: int, filled: bool, a: int, b: int)
    requires Connected(g) && InBounds(x, y) && InBounds(a, b)
    ensures CellOk(GroundEdit(g, x, y, filled), a, b)
  {
    var r := GroundEdit(g, x, y, filled);
    if a == x && b == y {
      GroundEditCell(g, x, y, filled);
      if filled {
        forall e: Dir
          ensures Has(At(r, x, y), e) == Linked(r, x, y, e)
        {
          NeighbourFacts(x, y, e);
          GroundEditKeepsLinked(g, x, y, filled, x, y, e);
        }
      }
    } else if Adjacent(a, b, x, y) {
      var d := AdjacentDir(a, b, x, y);
      var v := At(g, a, b);
      GroundEditNeighbour(g, x, y, filled, d);
      assert CellOk(g, a, b);
      if IsGround(v) {
        NeighbourFacts(x, y, d);
        GroundEditCell(g, x, y, filled);
        SetDirKeepsGround(v, Opposite(d));
        ClearDirKeepsGround(v, Opposite(d));
        SetDirBits(v, Opposite(d), Opposite(d));
        forall e: Dir
          ensures Has(At(r, a, b), e) == Linked(r, a, b, e)
        {
          SetDirBits(v, Opposite(d), e);
          ClearDirBits(v, Opposite(d), e);
          if e != Opposite(d) {
            if NX(a, e) == x && NY(b, e) == y {
              NeighbourIsCell(x, y, d, e);
            }
            GroundEditKeepsLinked(g, x, y, filled, a, b, e);
          }
        }
      }
    } else {
      GroundEditFrame(g, x, y, filled, a, b);
      assert CellOk(g, a, b);
      forall e: Dir
        ensures Linked(r, a, b, e) == Linked(g, a, b, e)
      {
        if NX(a, e) == x && NY(b, e) == y {
          NeighbourMeansAdjacent(a, b, e, x, y);
        }
        GroundEditKeepsLinked(g, x, y, filled, a, b, e);
      }
    }
  }

  /** After the right-button edit with a functional id, every cell still satisfies the invariant. */
  lemma {:induction false} FunctionalEditKeepsCellOk(g: Grid, x: int, y: int, id: int, a: int, b: int)
    requires Connected(g) && InBounds(x, y) && InBounds(a, b) && id >= BLOCK_BOX
    ensures CellOk(FunctionalEdit(g, x, y, id), a, b)
  {
    var r := FunctionalEdit(g, x, y, id);
    if a == x && b == y {
      FunctionalEditEffect(g, x, y, id, Left);
    } else if Adjacent(a, b, x, y) {
      var d := AdjacentDir(a, b, x, y);
      var v := At(g, a, b);
      FunctionalEditEffect(g, x, y, id, d);
      assert CellOk(g, a, b);
      if IsGround(v) {
        NeighbourFacts(x, y, d);
        ClearDirKeepsGround(v, Opposite(d));
        forall e: Dir
          ensures Has(At(r, a, b), e) == Linked(r, a, b, e)
        {
          ClearDirBits(v, Opposite(d), e);
          if e != Opposite(d) {
            if NX(a, e) == x && NY(b, e) == y {
              NeighbourIsCell(x, y, d, e);
            }
            FunctionalEditKeepsLinked(g, x, y, id, a, b, e);
          }
        }
      } else if v >= BLOCK_BOX {
        ClearDirKeepsFunctional(v, Opposite(d));
      }
    } else {
      FunctionalEditFrame(g, x, y, id, a, b);
      assert CellOk(g, a, b);
      forall e: Dir
        ensures Linked(r, a, b, e) == Linked(g, a, b, e)
      {
        if NX(a, e) == x && NY(b, e) == y {
          NeighbourMeansAdjacent(a, b, e, x, y);
        }
        FunctionalEditKeepsLinked(g, x, y, id, a, b, e);
      }
    }
  }

  /** The left-button edit preserves the connectivity invariant. */
  lemma {:induction false} GroundEditPreservesConnected(g: Grid, x: int, y: int, filled: bool)
    requires Connected(g) && InBounds(x, y)
    ensures Connected(GroundEdit(g, x, y, filled))
  {
    forall a, b | InBounds(a, b)
      ensures CellOk(GroundEdit(g, x, y, filled), a, b)
    {
      GroundEditKeepsCellOk(g, x, y, filled, a, b);
    }
  }

  /** The right-button edit preserves the connectivity invariant for any functional id. */
  lemma {:induction false} FunctionalEditPreservesConnected(g: Grid, x: int, y: int, id: int)
    requires Connected(g) && InBounds(x, y) && id >= BLOCK_BOX
    ensures Connected(FunctionalEdit(g, x, y, id))
  {
    forall a, b | InBounds(a, b)
      ensures CellOk(FunctionalEdit(g, x, y, id), a, b)
    {
      FunctionalEditKeepsCellOk(g, x, y, id, a, b);
    }
  }

  // ---------------------------------------------------------------------
  // Repeating an edit changes nothing.
  // ---------------------------------------------------------------------

  /** Two grids that agree on every cell are equal. */
  lemma {:induction false} GridsEqual(g1: Grid, g2: Grid)
    requires forall a, b | InBounds(a, b) :: At(g1, a, b) == At(g2, a, b)
    ensures g1 == g2
  {
    forall r | 0 <= r < TILESY
      ensures g1[r] == g2[r]
    {
      forall c | 0 <= c < TILESX
        ensures g1[r][c] == g2[r][c]
      {
        assert At(g1, c, r) == At(g2, c, r);
      }
    }
  }

  lemma ReciprocalIdempotent(v: int, e: Dir, gain: bool)
    ensures Reciprocal(Reciprocal(v, e, gain), e, gain) == Reciprocal(v, e, gain)
  {
    SetDirBits(v, e, e);
    ClearDirBits(v, e, e);
  }

  /** Repeating the left-button edit on the same cell leaves the grid unchanged, whatever the grid. */
  lemma {:induction false} GroundEditIdempotent(g: Grid, x: int, y: int, filled: bool)
    requires InBounds(x, y)
    ensures GroundEdit(GroundEdit(g, x, y, filled), x, y, filled) == GroundEdit(g, x, y, filled)
  {
    var g1 := GroundEdit(g, x, y, filled);
    var g2 := GroundEdit(g1, x, y, filled);
    forall a, b | InBounds(a, b)
      ensures At(g2, a, b) == At(g1, a, b)
    {
      if a == x && b == y {
        GroundEditCell(g, x, y, filled);
        GroundEditCell(g1, x, y, filled);
        if filled {
          // a ground neighbour only gains a bit, so it stays ground
          forall e: Dir
            ensures Linked(g1, x, y, e) == Linked(g, x, y, e)
          {
            if HasNeighbour(x, y, e) {
              GroundEditNeighbour(g, x, y, filled, e);
              var v := At(g, NX(x, e), NY(y, e));
              if IsGround(v) {
                SetDirKeepsGround(v, Opposite(e));
              }
            }
          }
        }
      } else if Adjacent(a, b, x, y) {
        var d := AdjacentDir(a, b, x, y);
        GroundEditNeighbour(g, x, y, filled, d);
        GroundEditNeighbour(g1, x, y, filled, d);
        ReciprocalIdempotent(At(g, a, b), Opposite(d), filled);
      } else {
        GroundEditFrame(g, x, y, filled, a, b);
        GroundEditFrame(g1, x, y, filled, a, b);
      }
    }
    GridsEqual(g2, g1);
  }

  /** Repeating the right-button edit on the same cell leaves the grid unchanged, whatever the grid. */
  lemma {:induction false} FunctionalEditIdempotent(g: Grid, x: int, y: int, id: int)
    requires InBounds(x, y)
    ensures FunctionalEdit(FunctionalEdit(g, x, y, id), x, y, id) == FunctionalEdit(g, x, y, id)
  {
    var g1 := FunctionalEdit(g, x, y, id);
    var g2 := FunctionalEdit(g1, x, y, id);
    forall a, b | InBounds(a, b)
      ensures At(g2, a, b) == At(g1, a, b)
    {
      if a == x && b == y {
        FunctionalEditEffect(g, x, y, id, Left);
        FunctionalEditEffect(g1, x, y, id, Left);
      } else if Adjacent(a, b, x, y) {
        var d := AdjacentDir(a, b, x, y);
        FunctionalEditEffect(g, x, y, id, d);
        FunctionalEditEffect(g1, x, y, id, d);
        ClearDirBits(At(g, a, b), Opposite(d), Opposite(d));
      } else {
        FunctionalEditFrame(g, x, y, id, a, b);
        FunctionalEditFrame(g1, x, y, id, a, b);
      }
    }
    GridsEqual(g2, g1);
  }

  /** Every cell of the blank grid is empty, so the blank grid satisfies the invariant. */
  lemma BlankConnected()
    ensures forall a, b | InBounds(a, b) :: At(Blank(), a, b) == BLOCK_EMPTY
    ensures Connected(Blank())
  {
  }

  // ---------------------------------------------------------------------
  // The editor state, updated in place.
  // ---------------------------------------------------------------------

  /** The part of the editor's state that the tile edits use. */
  class Plug {
    /** `int tilemap[TILESY][TILESX]`: row index first. */
    var tilemap: array2<int>
    /** Which of the two codes a click places (toggled with the F key). */
    var mouseState: bool

    ghost predicate Valid()
      reads this
    {
      tilemap.Length0 == TILESY && tilemap.Length1 == TILESX
    }

    /** The grid value held by the array. */
    ghost function Cells(): (g: Grid)
      requires Valid()
      reads this, tilemap
      ensures forall a, b | InBounds(a, b) :: At(g, a, b) == tilemap[b, a]
    {
      var t := tilemap;
      seq(TILESY, r requires 0 <= r < TILESY reads t =>
        seq(TILESX, c requires 0 <= c < TILESX reads t => t[r, c]))
    }

    /** `plug_init`: an all-empty grid, placing ground and boxes. */
    constructor ()
      ensures Valid() && fresh(tilemap)
      ensures Cells() == Blank() && mouseState
    {
      tilemap := new int[TILESY, TILESX];
      mouseState := true;
      new;
      ClearTiles();
    }

    /** The nested loops of `plug_init` and of the D key: every cell becomes BLOCK_EMPTY. */
    method ClearTiles()
      requires Valid()
      modifies tilemap
      ensures Valid() && Cells() == Blank()
    {
      for y := 0 to TILESY
        invariant forall a, b | 0 <= a < TILESX && 0 <= b < y :: tilemap[b, a] == BLOCK_EMPTY
      {
        for x := 0 to TILESX
          invariant forall a, b | 0 <= a < TILESX && 0 <= b < y :: tilemap[b, a] == BLOCK_EMPTY
          invariant forall a | 0 <= a < x :: tilemap[y, a] == BLOCK_EMPTY
        {
          tilemap[y, x] := BLOCK_EMPTY;
        }
      }
      BlankConnected();
      GridsEqual(Cells(), Blank());
    }

    /** One assignment to a cell. */
    method Write(x: int, y: int, v: int)
      requires Valid() && InBounds(x, y)
      modifies tilemap
      ensures Valid() && Cells() == Put(old(Cells()), x, y, v)
    {
      ghost var g := Cells();
      tilemap[y, x] := v;
      forall a, b | InBounds(a, b)
        ensures At(Cells(), a, b) == At(Put(g, x, y, v), a, b)
      {
        AtPut(g, x, y, v, a, b);
      }
      GridsEqual(Cells(), Put(g, x, y, v));
    }

    /** One neighbour test of the left-button branch. */
    method LinkNeighbour(x: int, y: int, d: Dir)
      requires Valid() && InBounds(x, y)
      modifies tilemap
      ensures Valid() && Cells() == Link(old(Cells()), x, y, d)
    {
      var nx, ny := NX(x, d), NY(y, d);
      if InBounds(nx, ny) && tilemap[ny, nx] != BLOCK_EMPTY && tilemap[ny, nx] < BLOCK_BOX {
        if tilemap[y, x] != BLOCK_EMPTY {
          Write(x, y, SetDir(tilemap[y, x], d));
          Write(nx, ny, SetDir(tilemap[ny, nx], Opposite(d)));
        } else {
          Write(nx, ny, ClearDir(tilemap[ny, nx], Opposite(d)));
        }
      }
    }

    /** One neighbour update of the right-button branch. */
    method UnlinkNeighbour(x: int, y: int, d: Dir)
      requires Valid() && InBounds(x, y)
      modifies tilemap
      ensures Valid() && Cells() == Unlink(old(Cells()), x, y, d)
    {
      var nx, ny := NX(x, d), NY(y, d);
      if InBounds(nx, ny) {
        Write(nx, ny, ClearDir(tilemap[ny, nx], Opposite(d)));
      }
    }

    /**
     * The left-button branch of `plug_update` on the cell under the mouse.
     * Only the upper bounds are tested, as in the source; a negative
     * position would index outside the array there.
     */
    method PlaceGround(x: int, y: int)
      requires Valid() && 0 <= x && 0 <= y
      modifies tilemap
      ensures Valid()
      ensures Cells() == if x < TILESX && y < TILESY then GroundEdit(old(Cells()), x, y, mouseState) else old(Cells())
      ensures Connected(old(Cells())) ==> Connected(Cells())
    {
      if x < TILESX && y < TILESY {
        ghost var g := Cells();
        Write(x, y, if mouseState then BLOCK_MIDDLE else BLOCK_EMPTY);
        LinkNeighbour(x, y, Bottom);
        LinkNeighbour(x, y, Top);
        LinkNeighbour(x, y, Left);
        LinkNeighbour(x, y, Right);
        if Connected(g) {
          GroundEditPreservesConnected(g, x, y, mouseState);
        }
      }
    }

    /** The right-button branch of `plug_update`: a box (or a key) on the cell under the mouse. */
    method PlaceFunctional(x: int, y: int)
      requires Valid() && 0 <= x && 0 <= y
      modifies tilemap
      ensures Valid()
      ensures Cells() ==
        if x < TILESX && y < TILESY then FunctionalEdit(old(Cells()), x, y, if mouseState then BLOCK_BOX else BLOCK_KEY)
        else old(Cells())
      ensures Connected(old(Cells())) ==> Connected(Cells())
    {
      if x < TILESX && y < TILESY {
        ghost var g := Cells();
        Write(x, y, if mouseState then BLOCK_BOX else BLOCK_KEY);
        UnlinkNeighbour(x, y, Bottom);
        UnlinkNeighbour(x, y, Top);
        UnlinkNeighbour(x, y, Left);
        UnlinkNeighbour(x, y, Right);
        if Connected(g) {
          FunctionalEditPreservesConnected(g, x, y, if mouseState then BLOCK_BOX else BLOCK_KEY);
        }
      }
    }

    /** The F key flips which code the next clicks place. */
    method ToggleMouseState()
      modifies this
      ensures mouseState == !old(mouseState) && tilemap == old(tilemap)
    {
      mouseState := !mouseState;
    }
  }
}
