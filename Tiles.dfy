/**
 * Tile codes of the level editor (src/plug.h).
 *
 * A grid cell holds a C `int`. Codes 1..31 are ground tiles: bit 0 is the
 * tile itself and bits 1..4 say towards which of its four neighbours the
 * tile connects. Codes from 32 upwards are functional tiles (coin, key, ...).
 *
 * Bit tests are written on unbounded integers: `(v / 2^k) % 2` with Dafny's
 * floor division is bit k of the two's-complement representation of `v`,
 * so setting or clearing one of bits 0..4 is exactly what `|=` and `&= ~`
 * do on a 32-bit `int` (see SetDirStaysInt32 and ClearDirStaysInt32).
 */
module Tiles {

  const SCREEN_WIDTH: int := 792
  const SCREEN_HEIGHT: int := 468
  const MAP_TILE_SIZE: int := 36

  /** Number of columns and rows of the editor grid. */
  const TILESX: int := SCREEN_WIDTH / MAP_TILE_SIZE
  const TILESY: int := SCREEN_HEIGHT / MAP_TILE_SIZE

  const BLOCK_EMPTY: int := 0
  const BLOCK_MIDDLE: int := 1
  const BLOCK_LEFT: int := 2
  const BLOCK_TOP: int := 4
  const BLOCK_RIGHT: int := 8
  const BLOCK_BOTTOM: int := 16
  const BLOCK_COIN: int := 32
  const BLOCK_KEY: int := 33
  const BLOCK_LEVER: int := 34
  const BLOCK_S_BRICK: int := 35
  const BLOCK_B_BRICK: int := 36

  /**
   * The box tile. The editor writes it and compares against it, but its
   * definition is not among the shown headers; this model fixes it at 32,
   * the first functional code, which is what keeps every functional code
   * functional after a neighbour clears one of its bits 1..4.
   */
  const BLOCK_BOX: int := 32

  const INT32_MIN: int := -0x8000_0000
  const INT32_MAX: int := 0x7fff_ffff

  predicate IsInt32(v: int) { INT32_MIN <= v <= INT32_MAX }

  /** The four connector directions. */
  datatype Dir = Left | Top | Right | Bottom

  /** The connector bit of a direction. */
  function Bit(d: Dir): int
  {
    match d
    case Left => BLOCK_LEFT
    case Top => BLOCK_TOP
    case Right => BLOCK_RIGHT
    case Bottom => BLOCK_BOTTOM
  }

  /** The direction that points back: a cell's BOTTOM faces its lower neighbour's TOP. */
  function Opposite(d: Dir): (e: Dir)
    ensures e != d && Bit(e) != Bit(d)
    ensures (d == Left <==> e == Right) && (d == Right <==> e == Left)
    ensures (d == Top <==> e == Bottom) && (d == Bottom <==> e == Top)
  {
    match d
    case Left => Right
    case Top => Bottom
    case Right => Left
    case Bottom => Top
  }

  /** Bit 0 (BLOCK_MIDDLE) of `v`. */
  predicate HasMiddle(v: int) { v % 2 == 1 }

  /** The connector bit of direction `d` in `v`. */
  predicate Has(v: int, d: Dir)
  {
    match d
    case Left => (v / 2) % 2 == 1
    case Top => (v / 4) % 2 == 1
    case Right => (v / 8) % 2 == 1
    case Bottom => (v / 16) % 2 == 1
  }

  /** A code the editor treats as ground: non-empty and below the box tile. */
  predicate IsGround(v: int) { v != BLOCK_EMPTY && v < BLOCK_BOX }

  /** `v | Bit(d)`. */
  function SetDir(v: int, d: Dir): int
  {
    if Has(v, d) then v else v + Bit(d)
  }

  /** `v & ~Bit(d)`. */
  function ClearDir(v: int, d: Dir): int
  {
    if Has(v, d) then v - Bit(d) else v
  }

  /** The ground code BLOCK_MIDDLE | the bits of the given directions. */
  function GroundCode(left: bool, top: bool, right: bool, bottom: bool): (v: int)
    ensures 1 <= v < BLOCK_BOX && HasMiddle(v)
    ensures Has(v, Left) == left && Has(v, Top) == top
    ensures Has(v, Right) == right && Has(v, Bottom) == bottom
  {
    BLOCK_MIDDLE
      + (if left then BLOCK_LEFT else 0)
      + (if top then BLOCK_TOP else 0)
      + (if right then BLOCK_RIGHT else 0)
      + (if bottom then BLOCK_BOTTOM else 0)
  }

  /** The five ground bits are distinct single bits, each set in exactly its own code. */
  lemma GroundBitsAreSingleBits(d: Dir, e: Dir)
    ensures Has(Bit(d), e) == (d == e)
    ensures !HasMiddle(Bit(d)) && HasMiddle(BLOCK_MIDDLE)
    ensures forall f: Dir :: !Has(BLOCK_MIDDLE, f)
  {
  }

  /** Every code MIDDLE | subset is decoded back to that subset: the 16 ground variants. */
  lemma {:induction false} GroundCodeDecodes(v: int)
    requires 1 <= v < BLOCK_BOX && HasMiddle(v)
    ensures v == GroundCode(Has(v, Left), Has(v, Top), Has(v, Right), Has(v, Bottom))
  {
  }

  /** The functional ids are 32..36, pairwise distinct, and all carry bit 5. */
  lemma FunctionalIds()
    ensures [BLOCK_COIN, BLOCK_KEY, BLOCK_LEVER, BLOCK_S_BRICK, BLOCK_B_BRICK] == [32, 33, 34, 35, 36]
    ensures forall v | v in {BLOCK_COIN, BLOCK_KEY, BLOCK_LEVER, BLOCK_S_BRICK, BLOCK_B_BRICK} ::
      (v / 32) % 2 == 1 && !IsGround(v)
  {
  }

  /** The grid is 22 columns by 13 rows. */
  lemma GridSize()
    ensures TILESX == 22 && TILESY == 13
  {
  }

  /** Euclidean division by 2, 4, 8 or 16 of a value written as m * a + r. */
  lemma DivExact(a: int, r: int, m: int)
    requires m == 2 || m == 4 || m == 8 || m == 16
    requires 0 <= r < m
    ensures (m * a + r) / m == a && (m * a + r) % m == r
  {
  }

  /** Reads the five low bits of 32*q + b0 + 2*b1 + 4*b2 + 8*b3 + 16*b4. */
  lemma {:induction false} BitsOf(q: int, b0: int, b1: int, b2: int, b3: int, b4: int)
    requires 0 <= b0 < 2 && 0 <= b1 < 2 && 0 <= b2 < 2 && 0 <= b3 < 2 && 0 <= b4 < 2
    ensures var v := 32 * q + b0 + 2 * b1 + 4 * b2 + 8 * b3 + 16 * b4;
      && (HasMiddle(v) <==> b0 == 1)
      && (Has(v, Left) <==> b1 == 1) && (Has(v, Top) <==> b2 == 1)
      && (Has(v, Right) <==> b3 == 1) && (Has(v, Bottom) <==> b4 == 1)
  {
    var a4 := 2 * q + b4;
    var a3 := 2 * a4 + b3;
    var a2 := 2 * a3 + b2;
    var a1 := 2 * a2 + b1;
    var v := 2 * a1 + b0;
    assert v == 32 * q + b0 + 2 * b1 + 4 * b2 + 8 * b3 + 16 * b4;
    DivExact(a1, b0, 2);
    DivExact(a2, b1, 2);
    DivExact(a3, b2, 2);
    DivExact(a4, b3, 2);
    DivExact(q, b4, 2);
    DivExact(a2, b0 + 2 * b1, 4);
    DivExact(a3, b0 + 2 * b1 + 4 * b2, 8);
    DivExact(a4, b0 + 2 * b1 + 4 * b2 + 8 * b3, 16);
  }

  /** Splits any integer into its five low bits and the rest. */
  lemma Decompose(v: int) returns (q: int, b0: int, b1: int, b2: int, b3: int, b4: int)
    ensures 0 <= b0 < 2 && 0 <= b1 < 2 && 0 <= b2 < 2 && 0 <= b3 < 2 && 0 <= b4 < 2
    ensures v == 32 * q + b0 + 2 * b1 + 4 * b2 + 8 * b3 + 16 * b4
  {
    var h1 := v / 2;
    var h2 := h1 / 2;
    var h3 := h2 / 2;
    var h4 := h3 / 2;
    q := h4 / 2;
    b0, b1, b2, b3, b4 := v % 2, h1 % 2, h2 % 2, h3 % 2, h4 % 2;
  }

  /** What `|=` does to the bits: only the chosen bit becomes set. */
  lemma SetDirBits(v: int, d: Dir, e: Dir)
    ensures Has(SetDir(v, d), e) == (d == e || Has(v, e))
    ensures HasMiddle(SetDir(v, d)) == HasMiddle(v)
  {
    var q, b0, b1, b2, b3, b4 := Decompose(v);
    BitsOf(q, b0, b1, b2, b3, b4);
    match d
    case Left => BitsOf(q, b0, 1, b2, b3, b4);
    case Top => BitsOf(q, b0, b1, 1, b3, b4);
    case Right => BitsOf(q, b0, b1, b2, 1, b4);
    case Bottom => BitsOf(q, b0, b1, b2, b3, 1);
  }

  /** What `&= ~` does to the bits: only the chosen bit becomes clear. */
  lemma ClearDirBits(v: int, d: Dir, e: Dir)
    ensures Has(ClearDir(v, d), e) == (d != e && Has(v, e))
    ensures HasMiddle(ClearDir(v, d)) == HasMiddle(v)
  {
    var q, b0, b1, b2, b3, b4 := Decompose(v);
    BitsOf(q, b0, b1, b2, b3, b4);
    match d
    case Left => BitsOf(q, b0, 0, b2, b3, b4);
    case Top => BitsOf(q, b0, b1, 0, b3, b4);
    case Right => BitsOf(q, b0, b1, b2, 0, b4);
    case Bottom => BitsOf(q, b0, b1, b2, b3, 0);
  }

  /** Setting a connector bit keeps a ground code ground. */
  lemma SetDirKeepsGround(v: int, d: Dir)
    requires IsGround(v)
    ensures IsGround(SetDir(v, d))
    ensures 0 < v ==> 0 < SetDir(v, d) < BLOCK_BOX
  {
  }

  /** Clearing a connector bit keeps a functional code at or above BLOCK_BOX. */
  lemma ClearDirKeepsFunctional(v: int, d: Dir)
    requires v >= BLOCK_BOX
    ensures ClearDir(v, d) >= BLOCK_BOX
  {
  }

  /** Clearing a connector bit keeps a ground code with bit 0 a ground code with bit 0. */
  lemma ClearDirKeepsGround(v: int, d: Dir)
    requires 1 <= v < BLOCK_BOX && HasMiddle(v)
    ensures 1 <= ClearDir(v, d) < BLOCK_BOX && HasMiddle(ClearDir(v, d))
  {
  }

  /** Clearing a connector bit can still change a functional id: a lever loses its bit 1 and reads as a coin. */
  lemma ClearDirChangesLever()
    ensures ClearDir(BLOCK_LEVER, Left) == BLOCK_COIN
  {
  }

  lemma SetDirStaysInt32(v: int, d: Dir)
    requires IsInt32(v)
    ensures IsInt32(SetDir(v, d))
  {
  }

  lemma ClearDirStaysInt32(v: int, d: Dir)
    requires IsInt32(v)
    ensures IsInt32(ClearDir(v, d))
  {
  }
}
