/**
 * The win condition of src/App.js:349-437: all non-zero tokens must form one
 * 4-connected region. Connectivity is stated with paths of orthogonally
 * adjacent non-zero cells; the game's own test (compare the number of
 * non-zero cells with the size of the region flooded from the first one) is
 * Won, and WonIffConnected proves the two agree.
 */
module Connectivity {
  import opened Cells

  /** A cell of the board whose token is not 0 (the flood fill's "nextSquares[r][c] !== 0"). */
  predicate Occupied(g: Grid, p: Pos) {
    InGrid(p) && At(g, p) != EMPTY
  }

  predicate Adjacent(p: Pos, q: Pos) {
    q == Step(p, Up) || q == Step(p, Down) || q == Step(p, Left) || q == Step(p, Right)
  }

  /** A walk over occupied cells, each step to an orthogonal neighbour. */
  ghost predicate IsPath(g: Grid, path: seq<Pos>) {
    && |path| > 0
    && (forall i | 0 <= i < |path| :: Occupied(g, path[i]))
    && (forall i | 0 <= i < |path| - 1 :: Adjacent(path[i], path[i + 1]))
  }

  ghost predicate PathFromTo(g: Grid, path: seq<Pos>, a: Pos, b: Pos) {
    IsPath(g, path) && path[0] == a && path[|path| - 1] == b
  }

  /** b can be reached from a through occupied cells. */
  ghost predicate Reachable(g: Grid, a: Pos, b: Pos) {
    exists path :: PathFromTo(g, path, a, b)
  }

  /** The 4-connected region of occupied cells containing a. */
  ghost function Component(g: Grid, a: Pos): set<Pos> {
    set q | q in AllCells() && Reachable(g, a, q)
  }

  /** Every pair of occupied cells is connected: the shards form one region. */
  ghost predicate AllConnected(g: Grid) {
    forall a, b | a in NonZero(g) && b in NonZero(g) :: Reachable(g, a, b)
  }

  /** Every occupied orthogonal neighbour of q is in S. */
  ghost predicate NeighboursIn(g: Grid, S: set<Pos>, q: Pos) {
    && (Occupied(g, Step(q, Up)) ==> Step(q, Up) in S)
    && (Occupied(g, Step(q, Down)) ==> Step(q, Down) in S)
    && (Occupied(g, Step(q, Left)) ==> Step(q, Left) in S)
    && (Occupied(g, Step(q, Right)) ==> Step(q, Right) in S)
  }

  /** p comes before q in row-major order, the order of the scan of src/App.js:403-413. */
  predicate RowMajorBefore(p: Pos, q: Pos) {
    p.row < q.row || (p.row == q.row && p.col < q.col)
  }

  /**
   * The first occupied cell at or after (r, c) in row-major order: it is
   * occupied, it is not before (r, c), and no occupied cell lies between
   * (r, c) and it; None when no occupied cell lies at or after (r, c).
   */
  function FirstOccupiedFrom(g: Grid, r: int, c: int): (o: Option<Pos>)
    requires 0 <= r <= Rows && 0 <= c <= Cols
    decreases Rows - r, Cols - c
    ensures o.Some? ==> Occupied(g, o.value) && !RowMajorBefore(o.value, Pos(r, c))
    ensures o.Some? ==> forall q | InGrid(q) && !RowMajorBefore(q, Pos(r, c)) && RowMajorBefore(q, o.value) :: !Occupied(g, q)
    ensures o.None? ==> forall q | InGrid(q) && !RowMajorBefore(q, Pos(r, c)) :: !Occupied(g, q)
  {
    if r == Rows then None
    else if c == Cols then FirstOccupiedFrom(g, r + 1, 0)
    else if At(g, Pos(r, c)) != EMPTY then Some(Pos(r, c))
    else FirstOccupiedFrom(g, r, c + 1)
  }

  /** The first occupied cell of the board in row-major order, where the flood of src/App.js:403-413 starts. */
  function FirstOccupied(g: Grid): (o: Option<Pos>)
    ensures o.Some? ==> Occupied(g, o.value)
    ensures o.Some? ==> forall q | InGrid(q) && RowMajorBefore(q, o.value) :: !Occupied(g, q)
    ensures o.None? <==> NonZero(g) == {}
  {
    FirstOccupiedFrom(g, 0, 0)
  }

  /**
   * contiguousCt of src/App.js:379-413: the size of the region flooded from
   * the first occupied cell, or 0 when the board holds no non-zero token.
   */
  ghost function ContiguousSize(g: Grid): nat {
    match FirstOccupied(g)
    case None => 0
    case Some(a) => |Component(g, a)|
  }

  /** The game's win test "squareCt === contiguousCt" (src/App.js:415). */
  ghost predicate Won(g: Grid) {
    |NonZero(g)| == ContiguousSize(g)
  }

  lemma ReachSelf(g: Grid, a: Pos)
    requires Occupied(g, a)
    ensures Reachable(g, a, a)
  {
    assert PathFromTo(g, [a], a, a);
  }

  lemma ReachEnds(g: Grid, a: Pos, b: Pos)
    requires Reachable(g, a, b)
    ensures Occupied(g, a) && Occupied(g, b)
  {
    var path :| PathFromTo(g, path, a, b);
    assert Occupied(g, path[|path| - 1]);
  }

  /** A step from an occupied cell onto the start of a path extends the path. */
  lemma ReachPrepend(g: Grid, p: Pos, n: Pos, b: Pos)
    requires Occupied(g, p) && Adjacent(p, n) && Reachable(g, n, b)
    ensures Reachable(g, p, b)
  {
    var path :| PathFromTo(g, path, n, b);
    var longer := [p] + path;
    forall i | 0 <= i < |longer| - 1
      ensures Adjacent(longer[i], longer[i + 1])
    {
      if i > 0 {
        assert longer[i] == path[i - 1] && longer[i + 1] == path[i];
      }
    }
    assert PathFromTo(g, longer, p, b);
  }

  lemma AdjacentSym(p: Pos, q: Pos)
    requires Adjacent(p, q)
    ensures Adjacent(q, p)
  {
  }

  lemma {:induction false} ReachSym(g: Grid, a: Pos, b: Pos)
    requires Reachable(g, a, b)
    ensures Reachable(g, b, a)
  {
    var path :| PathFromTo(g, path, a, b);
    var n := |path|;
    var back := seq(n, i requires 0 <= i < n => path[n - 1 - i]);
    forall i | 0 <= i < n - 1
      ensures Adjacent(back[i], back[i + 1])
    {
      assert Adjacent(path[n - 2 - i], path[n - 1 - i]);
      AdjacentSym(path[n - 2 - i], path[n - 1 - i]);
    }
    assert PathFromTo(g, back, b, a);
  }

  lemma ReachTrans(g: Grid, a: Pos, b: Pos, c: Pos)
    requires Reachable(g, a, b) && Reachable(g, b, c)
    ensures Reachable(g, a, c)
  {
    var p1 :| PathFromTo(g, p1, a, b);
    var p2 :| PathFromTo(g, p2, b, c);
    var joined := p1 + p2[1..];
    forall i | 0 <= i < |joined| - 1
      ensures Adjacent(joined[i], joined[i + 1])
    {
      if i < |p1| - 1 {
        assert joined[i] == p1[i] && joined[i + 1] == p1[i + 1];
      } else {
        assert joined[i] == p2[i - |p1| + 1] && joined[i + 1] == p2[i - |p1| + 2];
      }
    }
    assert PathFromTo(g, joined, a, c);
  }

  /** Every cell of a path that starts inside a neighbour-closed set stays inside it. */
  lemma {:induction false} PathInside(g: Grid, S: set<Pos>, path: seq<Pos>, i: nat)
    requires IsPath(g, path) && path[0] in S && i < |path|
    requires forall q | q in S :: NeighboursIn(g, S, q)
    ensures path[i] in S
  {
    if i > 0 {
      PathInside(g, S, path, i - 1);
      assert Adjacent(path[i - 1], path[i]);
      assert NeighboursIn(g, S, path[i - 1]);
      assert Occupied(g, path[i]);
    }
  }

  /**
   * What a finished flood fill leaves behind: a set that contains a, is
   * closed under occupied neighbours and reaches nothing it should not is
   * exactly a's region.
   */
  lemma ClosedRegionIsComponent(g: Grid, S: set<Pos>, a: Pos)
    requires a in S
    requires forall q | q in S :: Reachable(g, a, q)
    requires forall q | q in S :: NeighboursIn(g, S, q)
    ensures S == Component(g, a)
  {
    forall q | q in Component(g, a)
      ensures q in S
    {
      var path :| PathFromTo(g, path, a, q);
      PathInside(g, S, path, |path| - 1);
    }
    forall q | q in S
      ensures q in Component(g, a)
    {
      ReachEnds(g, a, q);
    }
  }

  lemma ComponentInside(g: Grid, a: Pos)
    requires Occupied(g, a)
    ensures a in Component(g, a)
    ensures Component(g, a) <= NonZero(g)
  {
    ReachSelf(g, a);
    forall q | q in Component(g, a)
      ensures q in NonZero(g)
    {
      ReachEnds(g, a, q);
    }
  }

  lemma SubsetSameSize<T>(A: set<T>, B: set<T>)
    requires A <= B && |A| == |B|
    ensures A == B
  {
    assert B == A + (B - A);
    assert |B - A| == 0;
  }

  /**
   * The game's win test means what its rules promise: squareCt equals
   * contiguousCt exactly when all non-zero tokens form one 4-connected
   * region. An empty board passes (0 == 0).
   */
  lemma WonIffConnected(g: Grid)
    ensures Won(g) <==> AllConnected(g)
    ensures NonZero(g) == {} ==> Won(g)
  {
    match FirstOccupied(g)
    case None =>
      assert NonZero(g) == {};
    case Some(a) =>
      var C := Component(g, a);
      ComponentInside(g, a);
      if Won(g) {
        SubsetSameSize(C, NonZero(g));
        forall x, y | x in NonZero(g) && y in NonZero(g)
          ensures Reachable(g, x, y)
        {
          assert x in C && y in C;
          ReachSym(g, a, x);
          ReachTrans(g, x, a, y);
        }
      }
      if AllConnected(g) {
        assert a in NonZero(g);
        assert NonZero(g) <= C;
        assert C == NonZero(g);
      }
  }
}
