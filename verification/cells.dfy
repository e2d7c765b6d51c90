/**
 * Cell tokens, positions and the fixed 7-by-7 board of the game.
 *
 * A board is a value: every handler of the game copies the board before it
 * changes it, so no two boards ever share state.
 */
module Cells {

  /** Board dimensions (numberOfRows, numberOfColumns); the game never changes them. */
  const Rows: int := 7
  const Cols: int := 7

  /** The five cell tokens. */
  const EMPTY: int := 0
  const SHARD: int := 1
  const SELECTED: int := -1
  const FROZEN_EMPTY: int := 3
  const FROZEN_SHARD: int := 4

  datatype Option<T> = None | Some(value: T)

  /** A board: Rows rows of Cols integer tokens. */
  type Grid = g: seq<seq<int>> | |g| == Rows && forall r | 0 <= r < Rows :: |g[r]| == Cols
    witness seq(Rows, _ => seq(Cols, _ => EMPTY))

  /** A (row, column) coordinate; a selection may point outside the board. */
  datatype Pos = Pos(row: int, col: int)

  datatype Dir = Up | Down | Left | Right

  predicate InGrid(p: Pos) {
    0 <= p.row < Rows && 0 <= p.col < Cols
  }

  function At(g: Grid, p: Pos): int
    requires InGrid(p)
  {
    g[p.row][p.col]
  }

  /** The neighbouring coordinate one step in direction d (it may be off the board). */
  function Step(p: Pos, d: Dir): Pos {
    match d
    case Up => Pos(p.row - 1, p.col)
    case Down => Pos(p.row + 1, p.col)
    case Left => Pos(p.row, p.col - 1)
    case Right => Pos(p.row, p.col + 1)
  }

  function Opposite(d: Dir): (e: Dir)
    ensures forall p :: Step(Step(p, d), e) == p
  {
    match d
    case Up => Down
    case Down => Up
    case Left => Right
    case Right => Left
  }

  /** Every coordinate of the board. */
  function AllCells(): (s: set<Pos>)
    ensures forall p :: p in s <==> InGrid(p)
  {
    set r, c | 0 <= r < Rows && 0 <= c < Cols :: Pos(r, c)
  }

  /** The cells holding a non-zero token (a shard, selected or frozen, or a frozen empty). */
  function NonZero(g: Grid): (s: set<Pos>)
    ensures forall p :: p in s <==> InGrid(p) && At(g, p) != EMPTY
  {
    set p | p in AllCells() && At(g, p) != EMPTY
  }

  /** The cells holding a frozen shard. */
  function FrozenShards(g: Grid): (s: set<Pos>)
    ensures forall p :: p in s <==> InGrid(p) && At(g, p) == FROZEN_SHARD
  {
    set p | p in AllCells() && At(g, p) == FROZEN_SHARD
  }

  /** Math.abs: the "normalise" step that turns a selected shard back into a shard. */
  function Abs(x: int): (y: int)
    ensures y >= 0 && (y == x || y == -x)
  {
    if x < 0 then -x else x
  }

  /** A board built cell by cell from f. */
  function Build(f: Pos --> int): (g: Grid)
    requires forall p | InGrid(p) :: f.requires(p)
    ensures forall p | InGrid(p) :: At(g, p) == f(p)
  {
    seq(Rows, r requires 0 <= r < Rows =>
      seq(Cols, c requires 0 <= c < Cols => assert InGrid(Pos(r, c)); f(Pos(r, c))))
  }

  /** The board with every token replaced by its absolute value (src/App.js:16, 128). */
  function AbsGrid(g: Grid): Grid {
    Build(p requires InGrid(p) => Abs(At(g, p)))
  }

  /** The win freeze of one cell (src/App.js:420-424): 0 becomes 3, every other token becomes 4. */
  function FrozenToken(x: int): int {
    if x == EMPTY then FROZEN_EMPTY else FROZEN_SHARD
  }

  /** The win freeze of the whole board (src/App.js:418-426). */
  function Frozen(g: Grid): Grid {
    Build(p requires InGrid(p) => FrozenToken(At(g, p)))
  }

  /** The all-empty board of Reset (src/App.js:239, 249). */
  function Blank(): Grid {
    seq(Rows, _ => seq(Cols, _ => EMPTY))
  }

  /** The board with cell p set to v. */
  function With(g: Grid, p: Pos, v: int): (h: Grid)
    requires InGrid(p)
    ensures At(h, p) == v
    ensures forall q | InGrid(q) && q != p :: At(h, q) == At(g, q)
  {
    g[p.row := g[p.row][p.col := v]]
  }

  /** The built-in board "E1" (src/App.js:79-85), also the initial board (src/App.js:48-61). */
  const E1: Grid := [[0, 0, 1, 0, 1, 0, 0],
                     [0, 1, 0, 1, 0, 1, 0],
                     [0, 0, 0, 0, 0, 0, 0],
                     [1, 0, 0, -1, 0, 0, 1],
                     [0, 0, 0, 0, 0, 0, 0],
                     [0, 1, 0, 1, 0, 1, 0],
                     [0, 0, 1, 0, 1, 0, 0]]

  /** The tokens a board can ever hold: 0, 1, -1, 3, 4 and the negations of 3 and 4. */
  predicate IsToken(x: int) {
    x == EMPTY || x == SHARD || x == SELECTED || x == FROZEN_EMPTY || x == FROZEN_SHARD
    || x == -FROZEN_EMPTY || x == -FROZEN_SHARD
  }

  ghost predicate AllTokens(g: Grid) {
    forall p | InGrid(p) :: IsToken(At(g, p))
  }

  /** A board of empties and shards only, as the Random button deals. */
  ghost predicate IsBinary(g: Grid) {
    forall p | InGrid(p) :: At(g, p) == EMPTY || At(g, p) == SHARD
  }

  ghost predicate NoNegative(g: Grid) {
    forall p | InGrid(p) :: At(g, p) >= 0
  }

  /** Two boards are equal when they agree on every cell. */
  lemma GridExt(g: Grid, h: Grid)
    requires forall p | InGrid(p) :: At(g, p) == At(h, p)
    ensures g == h
  {
    forall r | 0 <= r < Rows
      ensures g[r] == h[r]
    {
      forall c | 0 <= c < Cols
        ensures g[r][c] == h[r][c]
      {
        assert At(g, Pos(r, c)) == At(h, Pos(r, c));
      }
    }
  }

  /** Freezing leaves only 3 and 4 on the board, and the 4s sit exactly where the non-zero tokens were. */
  lemma FrozenTokens(g: Grid)
    ensures forall p | InGrid(p) :: At(Frozen(g), p) == FROZEN_EMPTY || At(Frozen(g), p) == FROZEN_SHARD
    ensures FrozenShards(Frozen(g)) == NonZero(g)
    ensures NonZero(Frozen(g)) == AllCells()
  {
  }

  /** Normalising keeps every magnitude and leaves no negative token; it is idempotent. */
  lemma AbsGridFacts(g: Grid)
    ensures NoNegative(AbsGrid(g))
    ensures NonZero(AbsGrid(g)) == NonZero(g)
    ensures AbsGrid(AbsGrid(g)) == AbsGrid(g)
    ensures NoNegative(g) ==> AbsGrid(g) == g
  {
    GridExt(AbsGrid(AbsGrid(g)), AbsGrid(g));
    if NoNegative(g) {
      GridExt(AbsGrid(g), g);
    }
  }
}
