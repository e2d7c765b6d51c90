/**
 * The two kinds of Play move: the wind-gust shove of a whole row or column
 * (src/App.js:175-206, 297-347) and the arrow-key step of the selection
 * marker (src/App.js:207-234).
 */
module Moves {
  import opened Cells

  /** The line a shove in direction d moves: the column for Up/Down, the row for Left/Right. */
  function LineOf(p: Pos, d: Dir): int {
    if d == Up || d == Down then p.col else p.row
  }

  /** How many lines a shove in direction d can pick from. */
  function LineCount(d: Dir): int {
    if d == Up || d == Down then Cols else Rows
  }

  /** The cell that a shove of line `line` in direction d would push off the edge. */
  function FarEnd(d: Dir, line: int): (q: Pos)
    ensures LineOf(q, d) == line && !InGrid(Step(q, d))
    ensures InGrid(q) <==> 0 <= line < LineCount(d)
  {
    match d
    case Up => Pos(0, line)
    case Down => Pos(Rows - 1, line)
    case Left => Pos(line, 0)
    case Right => Pos(line, Cols - 1)
  }

  /**
   * A shove is legal when its line lies on the board and the cell it would
   * push off the edge is empty: "nextSquares[0][selectedCol] === 0" and its
   * three siblings. A line index off the board finds no 0 there in the
   * source (an undefined cell, or a crash for a missing row) and is refused.
   */
  predicate ShoveLegal(g: Grid, d: Dir, p: Pos): (ok: bool)
    ensures ok ==> 0 <= LineOf(p, d) < LineCount(d)
  {
    var far := FarEnd(d, LineOf(p, d));
    InGrid(far) && At(g, far) == EMPTY
  }

  /**
   * The board after shoving line `line` one cell in direction d: each cell of
   * the line takes the token of its upstream neighbour and the cell at the
   * near end becomes 0; every other cell keeps its token.
   */
  function Shifted(g: Grid, d: Dir, line: int): (h: Grid)
    ensures forall q | InGrid(q) :: At(h, q) == ShiftedCell(g, d, line, q)
    ensures 0 <= line < LineCount(d) ==> At(h, FarEnd(Opposite(d), line)) == EMPTY
    ensures forall q | InGrid(q) && LineOf(q, d) != line :: At(h, q) == At(g, q)
  {
    Build(q requires InGrid(q) => ShiftedCell(g, d, line, q))
  }

  function ShiftedCell(g: Grid, d: Dir, line: int, q: Pos): int
    requires InGrid(q)
  {
    if LineOf(q, d) != line then At(g, q)
    else if InGrid(Step(q, Opposite(d))) then At(g, Step(q, Opposite(d)))
    else EMPTY
  }

  /** How many cells a line of direction d holds. */
  function LineLength(d: Dir): int {
    if d == Up || d == Down then Rows else Cols
  }

  /** How far q lies from the edge that a shove in direction d pushes towards. */
  function Depth(q: Pos, d: Dir): int {
    match d
    case Up => q.row
    case Down => Rows - 1 - q.row
    case Left => q.col
    case Right => Cols - 1 - q.col
  }

  /**
   * The cell of line `line` at depth k. The shove loops (src/App.js:176-178,
   * 184-186, 192-194, 200-202 and their button twins) overwrite the cells of
   * the line in this order, each with the cell at the next depth.
   */
  function LineCell(d: Dir, line: int, k: int): (q: Pos)
    ensures LineOf(q, d) == line && Depth(q, d) == k
    ensures 0 <= line < LineCount(d) && 0 <= k < LineLength(d) ==> InGrid(q)
  {
    match d
    case Up => Pos(k, line)
    case Down => Pos(Rows - 1 - k, line)
    case Left => Pos(line, k)
    case Right => Pos(line, Cols - 1 - k)
  }

  /** The cells of a line are ordered by depth, the next one upstream, and lie on the board. */
  lemma LineCellFacts(d: Dir, line: int, k: int)
    ensures Step(LineCell(d, line, k), Opposite(d)) == LineCell(d, line, k + 1)
    ensures forall q | LineOf(q, d) == line && Depth(q, d) == k :: q == LineCell(d, line, k)
    ensures InGrid(LineCell(d, line, k)) <==> 0 <= line < LineCount(d) && 0 <= k < LineLength(d)
  {
  }

  /** On the board, the upstream neighbour of q lies one depth further and is on the board unless q is the near end. */
  lemma DepthFacts(q: Pos, d: Dir)
    requires InGrid(q)
    ensures 0 <= Depth(q, d) < LineLength(d)
    ensures Depth(Step(q, Opposite(d)), d) == Depth(q, d) + 1
    ensures InGrid(Step(q, Opposite(d))) <==> Depth(q, d) < LineLength(d) - 1
  {
  }

  /** Where the token in cell q ends up after the shove. */
  function Moved(q: Pos, d: Dir, line: int): Pos {
    if LineOf(q, d) == line then Step(q, d) else q
  }

  lemma StepKeepsLine(q: Pos, d: Dir)
    ensures LineOf(Step(q, d), d) == LineOf(q, d)
    ensures LineOf(Step(q, Opposite(d)), d) == LineOf(q, d)
  {
  }

  /**
   * A shove moves every token of the line one cell in direction d, empties
   * the near end and touches no cell off the line.
   */
  lemma ShoveShiftsLine(g: Grid, d: Dir, line: int)
    requires 0 <= line < LineCount(d)
    ensures forall q | InGrid(q) && LineOf(q, d) != line :: At(Shifted(g, d, line), q) == At(g, q)
    ensures forall q | InGrid(q) && LineOf(q, d) == line && InGrid(Step(q, d)) ::
      At(Shifted(g, d, line), Step(q, d)) == At(g, q)
    ensures At(Shifted(g, d, line), FarEnd(Opposite(d), line)) == EMPTY
  {
    var h := Shifted(g, d, line);
    forall q | InGrid(q) && LineOf(q, d) == line && InGrid(Step(q, d))
      ensures At(h, Step(q, d)) == At(g, q)
    {
      StepKeepsLine(q, d);
      assert Step(Step(q, d), Opposite(d)) == q;
    }
    var near := FarEnd(Opposite(d), line);
    assert LineOf(near, d) == line;
  }

  lemma MovedInjective(p: Pos, q: Pos, d: Dir, line: int)
    requires Moved(p, d, line) == Moved(q, d, line)
    ensures p == q
  {
    StepKeepsLine(p, d);
    StepKeepsLine(q, d);
  }

  function MovedSet(S: set<Pos>, d: Dir, line: int): set<Pos> {
    set q | q in S :: Moved(q, d, line)
  }

  /** Moving the cells of a set one by one never merges two of them. */
  lemma {:induction false} MovedSetSize(S: set<Pos>, d: Dir, line: int)
    ensures |MovedSet(S, d, line)| == |S|
    decreases |S|
  {
    if S != {} {
      var x :| x in S;
      var rest := S - {x};
      var mx := Moved(x, d, line);
      var R := MovedSet(rest, d, line);
      MovedSetSize(rest, d, line);
      assert mx !in R by {
        if mx in R {
          var y :| y in rest && Moved(y, d, line) == mx;
          MovedInjective(x, y, d, line);
        }
      }
      assert MovedSet(S, d, line) == R + {mx} by {
        forall y | y in MovedSet(S, d, line) ensures y in R + {mx} {
          var q :| q in S && Moved(q, d, line) == y;
          if q != x { assert q in rest; }
        }
      }
    }
  }

  /** After a legal shove the non-zero cells are exactly the old ones, each moved along. */
  lemma ShiftedNonZero(g: Grid, d: Dir, line: int)
    requires InGrid(FarEnd(d, line)) && At(g, FarEnd(d, line)) == EMPTY
    ensures NonZero(Shifted(g, d, line)) == MovedSet(NonZero(g), d, line)
  {
    var h := Shifted(g, d, line);
    var M := MovedSet(NonZero(g), d, line);
    forall q | q in NonZero(h)
      ensures q in M
    {
      if LineOf(q, d) == line {
        var src := Step(q, Opposite(d));
        StepKeepsLine(q, d);
        assert InGrid(src) && At(g, src) != EMPTY;
        assert Moved(src, d, line) == q;
      } else {
        assert Moved(q, d, line) == q;
      }
    }
    forall q | q in M
      ensures q in NonZero(h)
    {
      var src :| src in NonZero(g) && Moved(src, d, line) == q;
      if LineOf(src, d) == line {
        // src is not the far end (that cell is empty), so the step stays on the board
        assert src != FarEnd(d, line);
        StepKeepsLine(src, d);
        assert InGrid(q) && Step(q, Opposite(d)) == src;
      } else {
        assert q == src;
      }
    }
  }

  /** A legal shove neither creates nor destroys a shard. */
  lemma ShoveKeepsShardCount(g: Grid, d: Dir, line: int)
    requires InGrid(FarEnd(d, line)) && At(g, FarEnd(d, line)) == EMPTY
    ensures |NonZero(Shifted(g, d, line))| == |NonZero(g)|
  {
    ShiftedNonZero(g, d, line);
    MovedSetSize(NonZero(g), d, line);
  }

  /**
   * The selected cell rides along with its line: its token lands one step
   * further on. Only a selection on the far-end cell, which a legal shove
   * requires to be empty, steps off the board.
   */
  lemma ShoveCarriesSelection(g: Grid, d: Dir, p: Pos)
    requires InGrid(p) && ShoveLegal(g, d, p)
    ensures InGrid(Step(p, d)) ==> At(Shifted(g, d, LineOf(p, d)), Step(p, d)) == At(g, p)
    ensures !InGrid(Step(p, d)) ==> At(g, p) == EMPTY
  {
    StepKeepsLine(p, d);
    assert Step(Step(p, d), Opposite(d)) == p;
    if !InGrid(Step(p, d)) {
      assert p == FarEnd(d, LineOf(p, d));
    }
  }

  /**
   * The corrected bounds guard of the arrow keys: on the board, a step is
   * allowed exactly when the neighbour it lands on is on the board too.
   * The guards of src/App.js:208, 215 and 222 are these; the ArrowDown
   * guard of src/App.js:229 is not (see ArrowDownGuardAsWrittenDisagrees).
   */
  function ArrowGuard(d: Dir, p: Pos): (ok: bool)
    requires InGrid(p)
    ensures ok <==> InGrid(Step(p, d))
  {
    match d
    case Left => p.col > 0
    case Right => p.col < Cols - 1
    case Up => p.row > 0
    case Down => p.row < Rows - 1
  }

  /** The four arrow-key guards as src/App.js:208, 215, 222 and 229 write them: ArrowDown tests the column against the row count. */
  predicate ArrowGuardAsWritten(d: Dir, p: Pos) {
    match d
    case Left => p.col > 0
    case Right => p.col < Cols - 1
    case Up => p.row > 0
    case Down => p.col < Rows - 1
  }

  /**
   * Whether an arrow key moves the selection p in the source: its written
   * guard holds, and for ArrowDown the row below exists (from the last row
   * "nextSquares[selectedRow+1]" is undefined and the handler throws, which
   * leaves the session as it was). It agrees with the corrected guard
   * except that ArrowDown is also refused from the last column.
   */
  function ArrowTaken(d: Dir, p: Pos): (ok: bool)
    requires InGrid(p)
    ensures ok ==> InGrid(Step(p, d))
    ensures ok <==> ArrowGuardAsWritten(d, p) && InGrid(Step(p, d))
    ensures ok <==> ArrowGuard(d, p) && (d == Down ==> p.col < Cols - 1)
  {
    ArrowGuardAsWritten(d, p) && (d == Down ==> p.row < Rows - 1)
  }

  /**
   * The written ArrowDown guard refuses a step from (2, 6) to (3, 6), which
   * is on the board, and allows the step from (6, 2) to row 7, which is not.
   */
  lemma ArrowDownGuardAsWrittenDisagrees()
    ensures InGrid(Pos(2, 6)) && InGrid(Step(Pos(2, 6), Down))
    ensures !ArrowGuardAsWritten(Down, Pos(2, 6)) && ArrowGuard(Down, Pos(2, 6))
    ensures InGrid(Pos(6, 2)) && !InGrid(Step(Pos(6, 2), Down))
    ensures ArrowGuardAsWritten(Down, Pos(6, 2)) && !ArrowGuard(Down, Pos(6, 2))
  {
  }

  /** The arrow step: negate the selected cell and its neighbour (the paired "*= -1"). */
  function Swapped(g: Grid, p: Pos, n: Pos): (h: Grid)
    requires InGrid(p) && InGrid(n)
    ensures p != n ==> At(h, p) == -At(g, p) && At(h, n) == -At(g, n)
    ensures forall q | InGrid(q) && q != p && q != n :: At(h, q) == At(g, q)
  {
    With(With(g, p, -At(g, p)), n, -At(g, n))
  }

  /**
   * An arrow step changes exactly two cells, negating each, so every cell
   * keeps its magnitude and the non-zero cells stay where they are.
   */
  lemma SwapKeepsMagnitudes(g: Grid, p: Pos, n: Pos)
    requires InGrid(p) && InGrid(n) && p != n
    ensures At(Swapped(g, p, n), p) == -At(g, p) && At(Swapped(g, p, n), n) == -At(g, n)
    ensures forall q | InGrid(q) && q != p && q != n :: At(Swapped(g, p, n), q) == At(g, q)
    ensures AbsGrid(Swapped(g, p, n)) == AbsGrid(g)
    ensures NonZero(Swapped(g, p, n)) == NonZero(g)
  {
    GridExt(AbsGrid(Swapped(g, p, n)), AbsGrid(g));
  }
}
