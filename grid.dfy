/**
  The playfield of the snake game: pixel-aligned cells, the four headings,
  the step from one cell to the next, the food-cell formula and the
  collision test on a prospective head.

  Coordinates are pixels, as in the game itself: a cell is the top-left
  corner of a CELL_SIZE x CELL_SIZE square, so every occupied coordinate is
  a multiple of CELL_SIZE.
*/
module Grid {

  /** Side of one grid cell in pixels (CELL_SIZE). */
  const CellSize: int := 20

  /** The window sizes the game offers (AVAILABLE_RESOLUTIONS). */
  const Resolutions: seq<(int, int)> := [(600, 400), (800, 600), (1280, 720), (1920, 1080)]

  datatype Cell = Cell(x: int, y: int)

  /** A heading is one of four unit steps scaled by CellSize (screen y grows downwards). */
  datatype Heading = Up | Down | Left | Right

  function Vector(d: Heading): (v: Cell)
    ensures (v.x == 0) != (v.y == 0)
    ensures v.x == CellSize || v.x == -CellSize || v.y == CellSize || v.y == -CellSize
  {
    match d
    case Up => Cell(0, -CellSize)
    case Down => Cell(0, CellSize)
    case Left => Cell(-CellSize, 0)
    case Right => Cell(CellSize, 0)
  }

  /** The exact reverse of a heading. */
  function Reverse(d: Heading): (r: Heading)
    ensures r != d
    ensures Vector(r).x == -Vector(d).x && Vector(r).y == -Vector(d).y
  {
    match d
    case Up => Down
    case Down => Up
    case Left => Right
    case Right => Left
  }

  /** A board is a positive width and height in whole cells. */
  predicate BoardOk(w: int, h: int) {
    0 < w && 0 < h && w % CellSize == 0 && h % CellSize == 0
  }

  predicate Aligned(c: Cell) {
    c.x % CellSize == 0 && c.y % CellSize == 0
  }

  /** Inside the half-open rectangle [0, w) x [0, h). */
  predicate OnBoard(c: Cell, w: int, h: int) {
    0 <= c.x < w && 0 <= c.y < h
  }

  /** Two cells one grid step apart, horizontally or vertically. */
  predicate Adjacent(a: Cell, b: Cell) {
    (a.x == b.x && (a.y - b.y == CellSize || b.y - a.y == CellSize)) ||
    (a.y == b.y && (a.x - b.x == CellSize || b.x - a.x == CellSize))
  }

  /** The cell one step from `head` along `d`. */
  function NextHead(head: Cell, d: Heading): (n: Cell)
    ensures Adjacent(n, head) && n != head
    ensures Aligned(head) ==> Aligned(n)
  {
    Cell(head.x + Vector(d).x, head.y + Vector(d).y)
  }

  /** The random draw `randint(0, w//CELL_SIZE-1)` for both axes, as a pair of cell indices. */
  predicate PickInRange(pick: (int, int), w: int, h: int) {
    0 <= pick.0 <= w / CellSize - 1 && 0 <= pick.1 <= h / CellSize - 1
  }

  /** A food cell from two drawn cell indices: every draw lands on an aligned cell inside the board. */
  function FoodCell(pick: (int, int), w: int, h: int): (c: Cell)
    requires PickInRange(pick, w, h)
    ensures Aligned(c) && OnBoard(c, w, h)
    ensures c.x / CellSize == pick.0 && c.y / CellSize == pick.1
  {
    Cell(pick.0 * CellSize, pick.1 * CellSize)
  }

  /**
    The body the game maintains: non-empty, every cell aligned and on the
    board, no cell twice, and each cell one step from the next.
  */
  predicate ValidBody(body: seq<Cell>, w: int, h: int) {
    |body| > 0 &&
    (forall i :: 0 <= i < |body| ==> Aligned(body[i]) && OnBoard(body[i], w, h)) &&
    (forall i, j :: 0 <= i < j < |body| ==> body[i] != body[j]) &&
    (forall i :: 0 <= i < |body| - 1 ==> Adjacent(body[i], body[i + 1]))
  }

  /**
    The game's collision test on a prospective head: off the board, or on
    any body cell except the head, the current tail included.
  */
  predicate Collides(next: Cell, body: seq<Cell>, w: int, h: int): (c: bool)
    requires |body| > 0
    // a safe head is on the board
    ensures !c ==> OnBoard(next, w, h)
    // the cell the tail is about to leave still counts as occupied
    ensures |body| > 1 && next == body[|body| - 1] ==> c
    // a safe head other than the current head is on no body cell
    ensures !c && next != body[0] ==> next !in body
  {
    !OnBoard(next, w, h) || next in body[1..]
  }

  /** The cell the snake starts on, the centre (w//2, h//2). */
  function StartCell(w: int, h: int): (c: Cell)
    requires (w, h) in Resolutions
    ensures Aligned(c) && OnBoard(c, w, h)
  {
    ResolutionIsBoard(w, h);
    Cell(w / 2, h / 2)
  }

  /** Every offered resolution is a whole number of cells, and so is half of it. */
  lemma ResolutionIsBoard(w: int, h: int)
    requires (w, h) in Resolutions
    ensures BoardOk(w, h)
    ensures (w / 2) % CellSize == 0 && (h / 2) % CellSize == 0
  {
  }
}
