/**
 * The Game component of src/App.js as an object. The current board is a
 * 7-by-7 array that the handlers change in place; the starting board, the
 * stored board, the selection and the three mode flags are fields. Every
 * handler is proved to perform exactly the transition module Session gives
 * for its event, so the invariant and the properties proved there hold of
 * the object.
 */
module App {
  import opened Cells
  import opened Connectivity
  import opened Moves
  import opened Session

  /** The cells marked in the flood fill's visited mask ("path"). */
  ghost function Seen(mask: array2<bool>): (s: set<Pos>)
    requires mask.Length0 == Rows && mask.Length1 == Cols
    reads mask
    ensures forall q :: q in s <==> InGrid(q) && mask[q.row, q.col]
  {
    set q | q in AllCells() && mask[q.row, q.col]
  }

  /**
   * What a flood fill started at p keeps true while it runs: every marked
   * cell is reachable from the start a, every cell marked since the fill
   * began (other than p itself) has all its occupied neighbours marked, and
   * so does p in the directions already visited.
   */
  ghost predicate Flooding(g: Grid, S: set<Pos>, before: set<Pos>, p: Pos, a: Pos, done: set<Dir>) {
    && before + {p} <= S
    && (forall q | q in S :: Reachable(g, a, q))
    && (forall q | q in S - before - {p} :: NeighboursIn(g, S, q))
    && (forall e | e in done :: Occupied(g, Step(p, e)) ==> Step(p, e) in S)
  }

  /** Marking the start cell p of a walk begins a flood with no direction visited yet. */
  lemma FloodingStart(g: Grid, before: set<Pos>, p: Pos, a: Pos)
    requires p !in before && InGrid(p) && Reachable(g, a, p)
    requires forall q | q in before :: Reachable(g, a, q)
    ensures Flooding(g, before + {p}, before, p, a, {})
    ensures |(before + {p}) - before| == 1
    ensures |AllCells() - (before + {p})| < |AllCells() - before|
  {
    assert (before + {p}) - before == {p};
    UnseenShrinks(before, before + {p}, p);
  }

  /** Once all four directions of p are visited, every newly marked cell has its occupied neighbours marked. */
  lemma FloodingDone(g: Grid, S: set<Pos>, before: set<Pos>, p: Pos, a: Pos, done: set<Dir>)
    requires Flooding(g, S, before, p, a, done)
    requires Up in done && Down in done && Left in done && Right in done
    ensures before + {p} <= S
    ensures forall q | q in S :: Reachable(g, a, q)
    ensures forall q | q in S - before :: NeighboursIn(g, S, q)
  {
    assert NeighboursIn(g, S, p);
  }

  lemma NeighboursGrow(g: Grid, S: set<Pos>, T: set<Pos>, X: set<Pos>)
    requires S <= T
    requires forall q | q in X :: NeighboursIn(g, S, q)
    ensures forall q | q in X :: NeighboursIn(g, T, q)
  {
  }

  lemma DiffAdd(A: set<Pos>, B: set<Pos>, C: set<Pos>)
    requires A <= B <= C
    ensures |C - A| == |C - B| + |B - A|
  {
    assert C - A == (C - B) + (B - A);
  }

  /** Marking one more cell shrinks the set of unmarked cells. */
  lemma UnseenShrinks(S: set<Pos>, T: set<Pos>, p: Pos)
    requires S <= T && p in T - S && InGrid(p)
    ensures |AllCells() - T| < |AllCells() - S|
  {
    var U := AllCells() - S;
    var V := AllCells() - T;
    assert U == V + (U - V);
    assert p in U - V;
  }

  /** Marking cells never lets the set of unmarked cells grow. */
  lemma UnseenNoGrow(S: set<Pos>, T: set<Pos>)
    requires S <= T
    ensures |AllCells() - T| <= |AllCells() - S|
  {
    var U := AllCells() - S;
    var V := AllCells() - T;
    assert U == V + (U - V);
  }

  /** The occupied cells of g before (i, j) in row-major order: what the counting loop has passed. */
  ghost function OccupiedBefore(g: Grid, i: int, j: int): set<Pos> {
    set q | q in NonZero(g) && (q.row < i || (q.row == i && q.col < j))
  }

  lemma OccupiedBeforeStep(g: Grid, i: int, j: int)
    requires 0 <= i < Rows && 0 <= j < Cols
    ensures |OccupiedBefore(g, i, j + 1)| == |OccupiedBefore(g, i, j)| + (if At(g, Pos(i, j)) != EMPTY then 1 else 0)
  {
    var A := OccupiedBefore(g, i, j);
    var B := OccupiedBefore(g, i, j + 1);
    var x := Pos(i, j);
    var X := if At(g, x) != EMPTY then {x} else {};
    forall q
      ensures q in B <==> q in A + X
    {
      if q in B && q !in A {
        assert q == x;
      }
    }
    assert B == A + X;
    assert x !in A;
  }

  lemma OccupiedBeforeEnds(g: Grid)
    ensures OccupiedBefore(g, 0, 0) == {}
    ensures OccupiedBefore(g, Rows, 0) == NonZero(g)
  {
  }

  /** Passing the end of row i is passing the start of row i + 1. */
  lemma OccupiedBeforeRow(g: Grid, i: int)
    ensures OccupiedBefore(g, i, Cols) == OccupiedBefore(g, i + 1, 0)
  {
  }

  /** A cell of the board part-way through a shove loop: the cells of the line at depth below k hold their upstream neighbours. */
  ghost function PartCell(g: Grid, d: Dir, line: int, k: int, q: Pos): int
    requires InGrid(q) && k < LineLength(d)
  {
    DepthFacts(q, d);
    if LineOf(q, d) == line && Depth(q, d) < k then At(g, Step(q, Opposite(d))) else At(g, q)
  }

  /** The board after the first k steps of a shove loop. */
  ghost function PartShifted(g: Grid, d: Dir, line: int, k: int): (h: Grid)
    requires k < LineLength(d)
    ensures forall q | InGrid(q) :: At(h, q) == PartCell(g, d, line, k, q)
  {
    Build(q requires InGrid(q) => PartCell(g, d, line, k, q))
  }

  lemma PartShiftedStart(g: Grid, d: Dir, line: int)
    ensures PartShifted(g, d, line, 0) == g
  {
    forall q | InGrid(q)
      ensures At(PartShifted(g, d, line, 0), q) == At(g, q)
    {
      DepthFacts(q, d);
    }
    GridExt(PartShifted(g, d, line, 0), g);
  }

  /** One step of a shove loop overwrites the cell at depth k with the cell at depth k + 1. */
  lemma PartShiftedStep(g: Grid, d: Dir, line: int, k: int)
    requires 0 <= line < LineCount(d) && 0 <= k < LineLength(d) - 1
    ensures var h := PartShifted(g, d, line, k);
      PartShifted(g, d, line, k + 1) == With(h, LineCell(d, line, k), At(h, LineCell(d, line, k + 1)))
  {
    var h := PartShifted(g, d, line, k);
    var q := LineCell(d, line, k);
    var u := LineCell(d, line, k + 1);
    LineCellFacts(d, line, k);
    forall x | InGrid(x)
      ensures At(PartShifted(g, d, line, k + 1), x) == At(With(h, q, At(h, u)), x)
    {
      DepthFacts(x, d);
      if x == q {
        DepthFacts(u, d);
      }
    }
    GridExt(PartShifted(g, d, line, k + 1), With(h, q, At(h, u)));
  }

  /** Emptying the near end after the last step of the loop gives the shoved board. */
  lemma PartShiftedDone(g: Grid, d: Dir, line: int)
    requires 0 <= line < LineCount(d)
    ensures With(PartShifted(g, d, line, LineLength(d) - 1), LineCell(d, line, LineLength(d) - 1), EMPTY)
      == Shifted(g, d, line)
  {
    var near := LineCell(d, line, LineLength(d) - 1);
    var h := With(PartShifted(g, d, line, LineLength(d) - 1), near, EMPTY);
    LineCellFacts(d, line, LineLength(d) - 1);
    forall x | InGrid(x)
      ensures At(h, x) == At(Shifted(g, d, line), x)
    {
      DepthFacts(x, d);
    }
    GridExt(h, Shifted(g, d, line));
  }

  class Game {
    /** currentSquares */
    const cells: array2<int>
    /** startingSquares */
    var starting: Grid
    /** storedSquares */
    var stored: Option<Grid>
    /** (selectedRow, selectedCol) */
    var selection: Option<Pos>
    var isSetup: bool
    var isPlayEnabled: bool
    var hasWon: bool

    predicate Shaped() {
      cells.Length0 == Rows && cells.Length1 == Cols
    }

    /** The current board as a value. */
    function Board(): (g: Grid)
      requires Shaped()
      reads cells
      ensures forall q | InGrid(q) :: At(g, q) == cells[q.row, q.col]
    {
      seq(Rows, r requires 0 <= r < Rows reads cells =>
        seq(Cols, c requires 0 <= c < Cols reads cells => cells[r, c]))
    }

    /** The session this object is in. */
    ghost function Snapshot(): State
      requires Shaped()
      reads this, cells
    {
      State(Board(), starting, stored, selection, isSetup, isPlayEnabled, hasWon)
    }

    ghost predicate Valid()
      reads this, cells
    {
      Shaped() && Inv(Snapshot())
    }

    /** The game as first shown (src/App.js:44-67). */
    constructor()
      ensures Valid() && Snapshot() == Initial()
    {
      cells := new int[Rows, Cols]((r, c) => if 0 <= r < Rows && 0 <= c < Cols then E1[r][c] else EMPTY);
      starting := E1;
      stored := None;
      selection := Some(Centre);
      isSetup := false;
      isPlayEnabled := true;
      hasWon := false;
      new;
      GridExt(Board(), E1);
      InitialInv();
    }

    /** The counting loop of updateIfValid (src/App.js:364-370): squareCt. */
    method CountOccupied() returns (n: nat)
      requires Shaped()
      ensures n == |NonZero(Board())|
    {
      ghost var g := Board();
      OccupiedBeforeEnds(g);
      n := 0;
      var i := 0;
      while i < Rows
        invariant 0 <= i <= Rows
        invariant n == |OccupiedBefore(g, i, 0)|
      {
        var j := 0;
        while j < Cols
          invariant 0 <= j <= Cols
          invariant n == |OccupiedBefore(g, i, j)|
        {
          OccupiedBeforeStep(g, i, j);
          if cells[i, j] != EMPTY {
            n := n + 1;
          }
          j := j + 1;
        }
        OccupiedBeforeRow(g, i);
        i := i + 1;
      }
    }

    /**
     * walkContiguous (src/App.js:383-401): mark p, then visit its four
     * neighbours, and return how many cells were marked in all. The ghost g
     * is the board being flooded, the ghost a the cell the flood started at.
     */
    method Walk(mask: array2<bool>, p: Pos, ghost g: Grid, ghost a: Pos) returns (count: nat)
      requires Shaped() && g == Board() && mask.Length0 == Rows && mask.Length1 == Cols
      requires InGrid(p) && p !in Seen(mask) && Reachable(g, a, p)
      requires forall q | q in Seen(mask) :: Reachable(g, a, q)
      modifies mask
      ensures g == Board()
      ensures old(Seen(mask)) + {p} <= Seen(mask)
      ensures forall q | q in Seen(mask) :: Reachable(g, a, q)
      ensures forall q | q in Seen(mask) - old(Seen(mask)) :: NeighboursIn(g, Seen(mask), q)
      ensures count == |Seen(mask) - old(Seen(mask))|
      decreases |AllCells() - Seen(mask)|, 0
    {
      ghost var before := Seen(mask);
      Mark(mask, p, g);
      FloodingStart(g, before, p, a);
      count := 1;
      var c := VisitPair(mask, p, Up, Down, g, a, before, {});
      count := count + c;
      UnseenShrinks(before, Seen(mask), p);
      c := VisitPair(mask, p, Left, Right, g, a, before, {Up} + {Down});
      count := count + c;
      FloodingDone(g, Seen(mask), before, p, a, {Up} + {Down} + {Left} + {Right});
    }

    /** The mark "path[r][c] = true" of walkContiguous. */
    method Mark(mask: array2<bool>, p: Pos, ghost g: Grid)
      requires Shaped() && g == Board() && mask.Length0 == Rows && mask.Length1 == Cols && InGrid(p)
      modifies mask
      ensures g == Board()
      ensures Seen(mask) == old(Seen(mask)) + {p}
    {
      mask[p.row, p.col] := true;
    }

    /** Two of the four neighbour tests of walkContiguous, in the source's order. */
    method VisitPair(mask: array2<bool>, p: Pos, d1: Dir, d2: Dir, ghost g: Grid, ghost a: Pos, ghost before: set<Pos>,
                     ghost done: set<Dir>) returns (count: nat)
      requires Shaped() && g == Board() && mask.Length0 == Rows && mask.Length1 == Cols
      requires InGrid(p) && Flooding(g, Seen(mask), before, p, a, done)
      modifies mask
      ensures g == Board()
      ensures Flooding(g, Seen(mask), before, p, a, done + {d1} + {d2})
      ensures |Seen(mask) - before| == |old(Seen(mask)) - before| + count
      decreases |AllCells() - Seen(mask)|, 2
    {
      count := Visit(mask, p, d1, g, a, before, done);
      UnseenNoGrow(old(Seen(mask)), Seen(mask));
      var c := Visit(mask, p, d2, g, a, before, done + {d1});
      count := count + c;
    }

    /**
     * One of the four neighbour tests of walkContiguous: when the neighbour
     * of p in direction d is on the board, unmarked and non-zero, walk it.
     */
    method Visit(mask: array2<bool>, p: Pos, d: Dir, ghost g: Grid, ghost a: Pos, ghost before: set<Pos>, ghost done: set<Dir>)
        returns (count: nat)
      requires Shaped() && g == Board() && mask.Length0 == Rows && mask.Length1 == Cols
      requires InGrid(p) && Flooding(g, Seen(mask), before, p, a, done)
      modifies mask
      ensures g == Board()
      ensures old(Seen(mask)) <= Seen(mask)
      ensures Flooding(g, Seen(mask), before, p, a, done + {d})
      ensures |Seen(mask) - before| == |old(Seen(mask)) - before| + count
      decreases |AllCells() - Seen(mask)|, 1
    {
      var n := Step(p, d);
      if InGrid(n) && !mask[n.row, n.col] && cells[n.row, n.col] != EMPTY {
        ghost var S0 := Seen(mask);
        assert Reachable(g, p, n) by {
          ReachSelf(g, n);
          ReachPrepend(g, p, n, n);
        }
        ReachTrans(g, a, p, n);
        count := Walk(mask, n, g, a);
        ghost var S1 := Seen(mask);
        NeighboursGrow(g, S0, S1, S0 - before - {p});
        DiffAdd(before, S0, S1);
      } else {
        count := 0;
      }
    }

    /**
     * The flood of updateIfValid from its first occupied cell a, over a
     * fresh all-clear mask ("path"): the size of a's region.
     */
    method FloodFrom(a: Pos) returns (n: nat)
      requires Shaped() && Occupied(Board(), a)
      ensures n == |Component(Board(), a)|
    {
      ghost var g := Board();
      var mask := new bool[Rows, Cols]((_, _) => false);
      assert Seen(mask) == {};
      ReachSelf(g, a);
      n := Walk(mask, a, g, a);
      assert Seen(mask) - {} == Seen(mask);
      ClosedRegionIsComponent(g, Seen(mask), a);
    }

    /**
     * The scan of updateIfValid (src/App.js:403-413): flood from the first
     * non-zero cell in row-major order and stop; contiguousCt.
     */
    method ContiguousCount() returns (n: nat)
      requires Shaped()
      ensures n == ContiguousSize(Board())
    {
      ghost var g := Board();
      n := 0;
      var i := 0;
      while i < Rows
        invariant 0 <= i <= Rows
        invariant n == 0 && FirstOccupiedFrom(g, i, 0) == FirstOccupied(g)
      {
        var j := 0;
        while j < Cols
          invariant 0 <= j <= Cols
          invariant n == 0 && FirstOccupiedFrom(g, i, j) == FirstOccupied(g)
        {
          if cells[i, j] != EMPTY {
            n := FloodFrom(Pos(i, j));
            ComponentInside(g, Pos(i, j));
            break;
          }
          j := j + 1;
        }
        if n != 0 {
          break;
        }
        i := i + 1;
      }
    }

    /** The freeze loop of updateIfValid (src/App.js:418-426). */
    method Freeze()
      requires Shaped()
      modifies cells
      ensures Board() == Frozen(old(Board()))
    {
      ghost var g := Board();
      var i := 0;
      while i < Rows
        invariant 0 <= i <= Rows
        invariant forall r, c | 0 <= r < Rows && 0 <= c < Cols ::
          cells[r, c] == (if r < i then FrozenToken(g[r][c]) else g[r][c])
      {
        var j := 0;
        while j < Cols
          invariant 0 <= j <= Cols
          invariant forall r, c | 0 <= r < Rows && 0 <= c < Cols ::
            cells[r, c] == (if r < i || (r == i && c < j) then FrozenToken(g[r][c]) else g[r][c])
        {
          if cells[i, j] == EMPTY {
            cells[i, j] := FROZEN_EMPTY;
          } else {
            cells[i, j] := FROZEN_SHARD;
          }
          j := j + 1;
        }
        i := i + 1;
      }
      GridExt(Board(), Frozen(g));
    }

    /** The win branch of updateIfValid (src/App.js:415-427): hasWon, Play disabled, the board frozen. */
    method Win()
      requires Shaped()
      modifies this, cells
      ensures Snapshot() == old(Snapshot()).(grid := Frozen(old(Board())), hasWon := true, isPlayEnabled := false)
    {
      hasWon := true;
      isPlayEnabled := false;
      Freeze();
    }

    /**
     * updateIfValid (src/App.js:349-437) on the board in cells. With
     * isPlacement it only reports whether some cell is non-zero. Otherwise
     * it runs the win check, freezing the board on a win, and unless
     * checkStart it moves the selection to next; it then reports true.
     */
    method UpdateIfValid(next: Option<Pos>, checkStart: bool, isPlacement: bool) returns (ok: bool)
      requires Shaped()
      modifies this, cells
      ensures isPlacement ==> Snapshot() == old(Snapshot()) && (ok <==> NonZero(Board()) != {})
      ensures !isPlacement && checkStart ==> ok && Snapshot() == Settle(old(Snapshot()), old(Board()))
      ensures !isPlacement && !checkStart ==> ok && Snapshot() == Settle(old(Snapshot()).(selection := next), old(Board()))
    {
      var squareCt := CountOccupied();
      if isPlacement {
        return squareCt != 0;
      }
      var contiguousCt := ContiguousCount();
      if squareCt == contiguousCt {
        Win();
      }
      if !checkStart {
        selection := next;
      }
      return true;
    }

    /** Math.abs on every cell: the copy each click and the mode change start from. */
    method AbsAll()
      requires Shaped()
      modifies cells
      ensures Board() == AbsGrid(old(Board()))
      ensures Snapshot() == old(Snapshot()).(grid := Board())
    {
      ghost var g := Board();
      var i := 0;
      while i < Rows
        invariant 0 <= i <= Rows
        invariant forall r, c | 0 <= r < Rows && 0 <= c < Cols ::
          cells[r, c] == (if r < i then Abs(g[r][c]) else g[r][c])
      {
        var j := 0;
        while j < Cols
          invariant 0 <= j <= Cols
          invariant forall r, c | 0 <= r < Rows && 0 <= c < Cols ::
            cells[r, c] == (if r < i || (r == i && c < j) then Abs(g[r][c]) else g[r][c])
        {
          cells[i, j] := Abs(cells[i, j]);
          j := j + 1;
        }
        i := i + 1;
      }
      GridExt(Board(), AbsGrid(g));
    }

    /** Copy a board value into cells (every setCurrentSquares of a fresh board). */
    method LoadGrid(g: Grid)
      requires Shaped()
      modifies cells
      ensures Board() == g
    {
      var i := 0;
      while i < Rows
        invariant 0 <= i <= Rows
        invariant forall r, c | 0 <= r < i && 0 <= c < Cols :: cells[r, c] == g[r][c]
      {
        var j := 0;
        while j < Cols
          invariant 0 <= j <= Cols
          invariant forall r, c | 0 <= r < Rows && 0 <= c < Cols && (r < i || (r == i && c < j)) :: cells[r, c] == g[r][c]
        {
          cells[i, j] := g[i][j];
          j := j + 1;
        }
        i := i + 1;
      }
      GridExt(Board(), g);
    }

    /**
     * The shove loop of a line (src/App.js:176-179, 184-187, 192-195,
     * 200-203, 300-304, 313-317, 326-330, 339-343): each cell from the far
     * end onwards takes its upstream neighbour, then the near end becomes 0.
     */
    method ShiftLine(d: Dir, line: int)
      requires Shaped() && 0 <= line < LineCount(d)
      modifies cells
      ensures Board() == Shifted(old(Board()), d, line)
      ensures Snapshot() == old(Snapshot()).(grid := Board())
    {
      ghost var g := Board();
      PartShiftedStart(g, d, line);
      var k := 0;
      while k < LineLength(d) - 1
        invariant 0 <= k <= LineLength(d) - 1
        invariant Board() == PartShifted(g, d, line, k)
      {
        ShiftCell(d, line, k, g);
        k := k + 1;
      }
      var near := LineCell(d, line, LineLength(d) - 1);
      SetCell(near, EMPTY);
      PartShiftedDone(g, d, line);
    }

    /** One pass of a shove loop: the cell at depth k takes the token of the cell at depth k + 1. */
    method ShiftCell(d: Dir, line: int, k: int, ghost g: Grid)
      requires Shaped() && 0 <= line < LineCount(d) && 0 <= k < LineLength(d) - 1
      requires Board() == PartShifted(g, d, line, k)
      modifies cells
      ensures Board() == PartShifted(g, d, line, k + 1)
    {
      var q := LineCell(d, line, k);
      var u := LineCell(d, line, k + 1);
      PartShiftedStep(g, d, line, k);
      var v := cells[u.row, u.col];
      assert v == At(Board(), u);
      SetCell(q, v);
    }

    /** populateAndPlay (src/App.js:70-76). */
    method PopulateAndPlay(g: Grid)
      requires Shaped()
      modifies this, cells
      ensures Snapshot() == old(Snapshot()).(hasWon := false, grid := g, isPlayEnabled := true, isSetup := false)
    {
      hasWon := false;
      LoadGrid(g);
      isPlayEnabled := true;
      isSetup := false;
    }

    /** Whether some cell holds a frozen shard: "currentSquares.some(r => r.includes(4))". */
    method HasFrozenShard() returns (found: bool)
      requires Shaped()
      ensures found <==> FrozenShards(Board()) != {}
    {
      ghost var g := Board();
      found := false;
      var i := 0;
      while i < Rows && !found
        invariant 0 <= i <= Rows
        invariant found ==> FrozenShards(g) != {}
        invariant !found ==> forall r, c | 0 <= r < i && 0 <= c < Cols :: g[r][c] != FROZEN_SHARD
      {
        var j := 0;
        while j < Cols && !found
          invariant 0 <= j <= Cols
          invariant found ==> FrozenShards(g) != {}
          invariant !found ==> forall r, c | 0 <= r < Rows && 0 <= c < Cols && (r < i || (r == i && c < j)) :: g[r][c] != FROZEN_SHARD
        {
          if cells[i, j] == FROZEN_SHARD {
            assert Pos(i, j) in FrozenShards(g);
            found := true;
          }
          j := j + 1;
        }
        i := i + 1;
      }
      if !found {
        forall q | InGrid(q)
          ensures q !in FrozenShards(g)
        {
          assert g[q.row][q.col] != FROZEN_SHARD;
        }
      }
    }

    /** One assignment "nextSquares[row][col] = v". */
    method SetCell(p: Pos, v: int)
      requires Shaped() && InGrid(p)
      modifies cells
      ensures Board() == With(old(Board()), p, v)
      ensures Snapshot() == old(Snapshot()).(grid := Board())
    {
      ghost var g := Board();
      cells[p.row, p.col] := v;
      GridExt(Board(), With(g, p, v));
    }

    /**
     * handlePlace (src/App.js:146-155) on the normalised board: toggle the
     * cell between 0 and 1, then enable Play exactly when some cell is
     * non-zero. On the non-negative tokens it sees, JavaScript's % agrees
     * with Dafny's.
     */
    method Place(p: Pos)
      requires Shaped() && InGrid(p) && At(Board(), p) >= 0
      modifies this, cells
      ensures var placed := With(old(Board()), p, (At(old(Board()), p) + 1) % 2);
        Snapshot() == old(Snapshot()).(grid := placed, isPlayEnabled := NonZero(placed) != {})
    {
      SetCell(p, (cells[p.row, p.col] + 1) % 2);
      var placeable := UpdateIfValid(selection, true, true);
      isPlayEnabled := placeable;
    }

    /** handleSelect (src/App.js:157-164) on the normalised board: unless won, negate the cell and select it. */
    method Select(p: Pos)
      requires Shaped() && InGrid(p)
      modifies this, cells
      ensures Snapshot() ==
        if old(hasWon) then old(Snapshot())
        else old(Snapshot()).(grid := With(old(Board()), p, -At(old(Board()), p)), selection := Some(p))
    {
      if !hasWon {
        NegateCell(p);
        SetSelection(Some(p));
      }
    }

    /** The "*= -1" that marks or unmarks a selected cell. */
    method NegateCell(p: Pos)
      requires Shaped() && InGrid(p)
      modifies cells
      ensures Snapshot() == old(Snapshot()).(grid := With(old(Board()), p, -At(old(Board()), p)))
    {
      SetCell(p, -cells[p.row, p.col]);
    }

    /** The paired "*= -1" of an arrow key: the selected cell and its neighbour n. */
    method SwapCells(p: Pos, n: Pos)
      requires Shaped() && InGrid(p) && InGrid(n) && p != n
      modifies cells
      ensures Snapshot() == old(Snapshot()).(grid := Swapped(old(Board()), p, n))
    {
      ghost var g := Board();
      NegateCell(p);
      ghost var b := With(g, p, -At(g, p));
      assert At(b, n) == At(g, n);
      NegateCell(n);
    }

    /** setSelectedRow and setSelectedCol together. */
    method SetSelection(q: Option<Pos>)
      requires Shaped()
      modifies this
      ensures Snapshot() == old(Snapshot()).(selection := q)
    {
      selection := q;
    }

    /**
     * A click on square p (Board.handleClick, src/App.js:15-23): normalise
     * the board, then place in Setup and select in Play. A select after a
     * win discards the normalised copy, so the board is left as it was.
     */
    method ClickSquare(p: Pos)
      requires Shaped() && InGrid(p)
      modifies this, cells
      ensures Snapshot() == Click(old(Snapshot()), p)
    {
      ghost var s := Snapshot();
      ghost var next := AbsGrid(s.grid);
      if isSetup {
        AbsAll();
        assert At(Board(), p) == Abs(At(s.grid, p));
        Place(p);
        assert Snapshot() == Click(s, p);
      } else if !hasWon {
        AbsAll();
        Select(p);
        assert Snapshot() == Click(s, p);
      }
    }

    /**
     * A wind gust (handleControl{Up,Down,Left,Right}Click, src/App.js:297-347,
     * and the W, S, A, D keys, src/App.js:175-206): in Play before a win,
     * when the far-end cell of the selection's line is 0, shove the line and
     * run the win check with the selection one step further.
     */
    method Gust(d: Dir)
      requires Shaped()
      modifies this, cells
      ensures Snapshot() == Shove(old(Snapshot()), d)
    {
      ghost var s := Snapshot();
      if !hasWon && !isSetup && selection.Some? {
        var p := selection.value;
        var line := LineOf(p, d);
        var far := FarEnd(d, line);
        if InGrid(far) && cells[far.row, far.col] == EMPTY {
          LegalShove(s, d);
          ShiftLine(d, line);
          ghost var h := Board();
          assert Snapshot() == s.(grid := h);
          var valid := UpdateIfValid(Some(Step(p, d)), false, false);
          ghost var moved := s.(selection := Some(Step(p, d)));
          assert Snapshot() == Settle(moved.(grid := h), h);
          SettleIgnoresGrid(moved, h, h);
        }
      }
    }

    /**
     * An arrow key (src/App.js:207-234): negate the selected cell and its
     * neighbour and select the neighbour, when that neighbour is on the board.
     */
    method ArrowStep(d: Dir)
      requires Shaped()
      modifies this, cells
      ensures Snapshot() == Arrow(old(Snapshot()), d)
    {
      ghost var s := Snapshot();
      if !hasWon && !isSetup && selection.Some? {
        var p := selection.value;
        if InGrid(p) && ArrowTaken(d, p) {
          var n := Step(p, d);
          SwapCells(p, n);
          SetSelection(Some(n));
          assert Snapshot() == Arrow(s, d);
        }
      }
    }

    /** The Edit/Play control (handleSetupModeChanged, src/App.js:127-144). */
    method SetupModeChanged()
      requires Shaped()
      modifies this, cells
      ensures Snapshot() == ToggleMode(old(Snapshot()))
    {
      ghost var s := Snapshot();
      if !isSetup {
        selection := None;
        AbsAll();
        isSetup := true;
      } else if isPlayEnabled {
        AbsAll();
        ghost var next := AbsGrid(s.grid);
        assert Snapshot() == s.(grid := next);
        var valid := UpdateIfValid(selection, true, false);
        SettleIgnoresGrid(s, next, next);
        ghost var t := Settle(s, next);
        assert Snapshot() == t;
        EnterPlay();
      } else {
        isSetup := true;
        isPlayEnabled := false;
        assert Snapshot() == s.(isSetup := true, isPlayEnabled := false);
      }
    }

    /** The tail of a successful Setup-to-Play switch: the current board becomes the starting board. */
    method EnterPlay()
      requires Shaped()
      modifies this
      ensures Snapshot() == old(Snapshot()).(starting := old(Board()), isSetup := false)
    {
      starting := Board();
      isSetup := false;
    }

    /** Store (handleStoreClick, src/App.js:261-266). */
    method StoreClick()
      requires Shaped()
      modifies this
      ensures Snapshot() == Store(old(Snapshot()))
    {
      var frozen := HasFrozenShard();
      if !frozen {
        stored := Some(Board());
      }
    }

    /** Recall (handleRecallClick, src/App.js:268-291). */
    method RecallClick()
      requires Shaped()
      modifies this, cells
      ensures Snapshot() == Recall(old(Snapshot()))
    {
      if stored.Some? {
        hasWon := false;
        LoadGrid(stored.value);
        if isSetup {
          AbsAll();
        }
        var placeable := UpdateIfValid(selection, true, true);
        if isSetup {
          isPlayEnabled := placeable;
        } else if !placeable {
          isPlayEnabled := false;
          isSetup := true;
        } else {
          isPlayEnabled := true;
          isSetup := false;
        }
      }
    }

    /** Clear (handleClearClick, src/App.js:293-295). */
    method ClearClick()
      requires Shaped()
      modifies this
      ensures Snapshot() == Clear(old(Snapshot()))
    {
      stored := None;
    }

    /** Empty (handleResetClick, src/App.js:248-255), also the N key (src/App.js:238-245). */
    method ResetClick()
      requires Shaped()
      modifies this, cells
      ensures Snapshot() == Reset(old(Snapshot()))
    {
      LoadGrid(Blank());
      isPlayEnabled := false;
      isSetup := true;
      hasWon := false;
    }

    /** Restart (handleRestartClick, src/App.js:92-99). */
    method RestartClick()
      requires Shaped()
      modifies this, cells
      ensures Snapshot() == Restart(old(Snapshot()))
    {
      if hasWon || (isPlayEnabled && !isSetup) {
        PopulateAndPlay(starting);
        selection := Some(Centre);
      }
    }

    /** E1 (handleEasyClick, src/App.js:78-90). */
    method EasyClick()
      requires Shaped()
      modifies this, cells
      ensures Snapshot() == Easy(old(Snapshot()))
    {
      starting := E1;
      PopulateAndPlay(E1);
      selection := Some(Centre);
    }

    /** Random (handleRandomClick, src/App.js:101-116), with the dealt board as a parameter. */
    method RandomClick(dealt: Grid)
      requires Shaped() && IsBinary(dealt)
      modifies this, cells
      ensures Snapshot() == Randomize(old(Snapshot()), dealt)
    {
      starting := dealt;
      PopulateAndPlay(dealt);
      selection := Some(Centre);
    }

    /** handleOnKeyDown (src/App.js:166-246) for a decoded key. */
    method KeyDown(k: Key)
      requires Shaped()
      modifies this, cells
      ensures Snapshot() == OnKey(old(Snapshot()), k)
    {
      if !hasWon {
        if k == KeyE {
          SetupModeChanged();
        } else if !isSetup {
          match k
          case KeyW => Gust(Up);
          case KeyD => Gust(Right);
          case KeyS => Gust(Down);
          case KeyA => Gust(Left);
          case ArrowKey(d) => ArrowStep(d);
          case _ =>
        }
      }
      if k == KeyN {
        ResetClick();
      }
    }

    /**
     * One event, delivered to its handler as React does. The handlers above
     * need only the board's shape; the session invariant is carried from
     * event to event here.
     */
    method Dispatch(e: Event)
      requires Valid() && WellFormed(e)
      modifies this, cells
      ensures Valid() && Snapshot() == Apply(old(Snapshot()), e)
    {
      ghost var s := Snapshot();
      match e {
        case CellClicked(p) => ClickSquare(p);
        case GustClicked(d) => Gust(d);
        case KeyPressed(k) => KeyDown(k);
        case ModeClicked => SetupModeChanged();
        case StoreClicked => StoreClick();
        case RecallClicked => RecallClick();
        case ClearClicked => ClearClick();
        case EmptyClicked => ResetClick();
        case RestartClicked => RestartClick();
        case EasyClicked => EasyClick();
        case RandomClicked(dealt) => RandomClick(dealt);
      }
      EventKeepsInv(s, e);
    }
  }
}
