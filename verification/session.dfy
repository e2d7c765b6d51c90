/**
 * The game session of src/App.js as a value, and one transition per event
 * handler. Every transition reads only the state before the event: React
 * applies the setters of a handler after the handler returns.
 */
module Session {
  import opened Cells
  import opened Connectivity
  import opened Moves

  datatype State = State(
    grid: Grid,              // currentSquares
    starting: Grid,          // startingSquares, what Restart brings back
    stored: Option<Grid>,    // storedSquares, null until Store
    selection: Option<Pos>,  // (selectedRow, selectedCol), both null or both set
    isSetup: bool,           // Edit (Setup) mode rather than Play
    isPlayEnabled: bool,     // the Play control is enabled
    hasWon: bool)

  /** The selection that E1, Random and Restart set (src/App.js:88-89, 96-97, 114-115). */
  const Centre: Pos := Pos(3, 3)

  /** The session when the game is first shown (src/App.js:44-67). */
  function Initial(): State {
    State(E1, E1, None, Some(Centre), false, true, false)
  }

  /**
   * The connectivity branch of updateIfValid (src/App.js:377-427) on board g:
   * on a win the board is frozen, hasWon is set and Play is disabled;
   * otherwise g simply becomes the board.
   */
  ghost function Settle(s: State, g: Grid): (t: State)
    ensures t.starting == s.starting && t.stored == s.stored && t.selection == s.selection && t.isSetup == s.isSetup
    ensures t.grid == g || (Won(g) && t.grid == Frozen(g) && t.hasWon && !t.isPlayEnabled)
    ensures t.hasWon <==> s.hasWon || Won(g)
  {
    if Won(g) then s.(grid := Frozen(g), hasWon := true, isPlayEnabled := false)
    else s.(grid := g)
  }

  /**
   * A click on cell p (Board.handleClick, src/App.js:15-23): normalise the
   * board, then in Setup toggle the cell (handlePlace, src/App.js:146-155,
   * whose placement check enables Play iff some cell is non-zero), and in
   * Play, unless won, negate the cell and select it (handleSelect,
   * src/App.js:157-164).
   */
  function Click(s: State, p: Pos): (t: State)
    requires InGrid(p)
    ensures t.starting == s.starting && t.stored == s.stored && t.isSetup == s.isSetup && t.hasWon == s.hasWon
    ensures forall q | InGrid(q) && q != p :: Abs(At(t.grid, q)) == Abs(At(s.grid, q))
    ensures !s.isSetup && !s.hasWon ==> t.selection == Some(p) && At(t.grid, p) == -Abs(At(s.grid, p))
  {
    var next := AbsGrid(s.grid);
    if s.isSetup then
      var placed := With(next, p, (At(next, p) + 1) % 2);
      s.(grid := placed, isPlayEnabled := NonZero(placed) != {})
    else if !s.hasWon then
      s.(grid := With(next, p, -At(next, p)), selection := Some(p))
    else
      s
  }

  /**
   * A wind gust in direction d (handleControl{Up,Down,Left,Right}Click,
   * src/App.js:297-347, and the W/S/A/D keys, src/App.js:175-206): in Play
   * and not won, a legal shove of the selection's line, then the win check,
   * with the selection one step further.
   */
  ghost function Shove(s: State, d: Dir): (t: State)
    ensures t.starting == s.starting && t.stored == s.stored && t.isSetup == s.isSetup
    ensures t != s ==> !s.hasWon && !s.isSetup && s.selection.Some? && ShoveLegal(s.grid, d, s.selection.value)
    ensures t != s ==> t.selection == Some(Step(s.selection.value, d))
  {
    if s.hasWon || s.isSetup || s.selection.None? then s
    else
      var p := s.selection.value;
      if !ShoveLegal(s.grid, d, p) then s
      else Settle(s.(selection := Some(Step(p, d))), Shifted(s.grid, d, LineOf(p, d)))
  }

  /**
   * An arrow key (src/App.js:207-234): negate the selected cell and its
   * neighbour in direction d and select the neighbour. There is no win check.
   */
  function Arrow(s: State, d: Dir): (t: State)
    ensures t.starting == s.starting && t.stored == s.stored && t.isSetup == s.isSetup
    ensures t.hasWon == s.hasWon && t.isPlayEnabled == s.isPlayEnabled
    ensures t != s ==> !s.hasWon && !s.isSetup && s.selection.Some? && InGrid(s.selection.value)
    ensures t != s ==> t.selection == Some(Step(s.selection.value, d)) && InGrid(Step(s.selection.value, d))
    ensures t != s && d == Down ==> s.selection.value.col < Cols - 1
  {
    if s.hasWon || s.isSetup || s.selection.None? then s
    else
      var p := s.selection.value;
      if !InGrid(p) || !ArrowTaken(d, p) then s
      else s.(grid := Swapped(s.grid, p, Step(p, d)), selection := Some(Step(p, d)))
  }

  /**
   * The Edit/Play control (handleSetupModeChanged, src/App.js:127-144).
   * Play to Setup normalises the board and drops the selection. Setup to
   * Play, when enabled, normalises the board, runs the win check on it
   * (which may freeze it) and makes the result the starting board.
   */
  ghost function ToggleMode(s: State): (t: State)
    ensures t.stored == s.stored
    ensures t.isSetup == !s.isSetup || (t.isSetup && !t.isPlayEnabled)
    ensures !t.isSetup ==> t.starting == t.grid && t.selection == s.selection
  {
    var next := AbsGrid(s.grid);
    if !s.isSetup then
      s.(grid := next, selection := None, isSetup := true)
    else if s.isPlayEnabled then
      var t := Settle(s, next);
      t.(starting := t.grid, isSetup := false)
    else
      s.(isSetup := true, isPlayEnabled := false)
  }

  /** Store (src/App.js:261-266): refused while a frozen shard (4) is on the board. */
  function Store(s: State): (t: State)
    ensures t.(stored := s.stored) == s
    ensures t.stored == s.stored || t.stored == Some(s.grid)
    ensures t.stored != s.stored <==> FrozenShards(s.grid) == {} && s.stored != Some(s.grid)
  {
    if FrozenShards(s.grid) != {} then s else s.(stored := Some(s.grid))
  }

  /**
   * Recall (src/App.js:268-291): load the stored board, normalised when in
   * Setup, and clear hasWon; the placement check then enables Play (Setup)
   * or drops an empty board back to Setup with Play disabled (Play).
   */
  function Recall(s: State): (t: State)
    ensures t.stored == s.stored && t.starting == s.starting && t.selection == s.selection
    ensures s.stored.Some? ==> !t.hasWon && (t.isPlayEnabled <==> NonZero(t.grid) != {})
    ensures s.stored.Some? ==> forall q | InGrid(q) :: Abs(At(t.grid, q)) == Abs(At(s.stored.value, q))
  {
    if s.stored.None? then s
    else
      var temp := if s.isSetup then AbsGrid(s.stored.value) else s.stored.value;
      var placeable := NonZero(temp) != {};
      if s.isSetup then
        s.(hasWon := false, grid := temp, isPlayEnabled := placeable)
      else if !placeable then
        s.(hasWon := false, grid := temp, isPlayEnabled := false, isSetup := true)
      else
        s.(hasWon := false, grid := temp, isPlayEnabled := true, isSetup := false)
  }

  /** Clear (src/App.js:293-295). */
  function Clear(s: State): (t: State)
    ensures t.stored.None? && t.(stored := s.stored) == s
  {
    s.(stored := None)
  }

  /** The Empty button and the N key (src/App.js:238-255). */
  function Reset(s: State): (t: State)
    ensures NonZero(t.grid) == {} && t.isSetup && !t.isPlayEnabled && !t.hasWon
    ensures t.starting == s.starting && t.stored == s.stored && t.selection == s.selection
  {
    s.(grid := Blank(), isPlayEnabled := false, isSetup := true, hasWon := false)
  }

  /** populateAndPlay (src/App.js:70-76) followed by selecting the centre. */
  function LoadAndPlay(s: State, g: Grid): State {
    s.(hasWon := false, grid := g, isPlayEnabled := true, isSetup := false, selection := Some(Centre))
  }

  /** Restart (src/App.js:92-99): allowed when won, or in Play with Play enabled. */
  function Restart(s: State): (t: State)
    ensures t == s || (t.grid == s.starting && t.starting == s.starting && t.selection == Some(Centre))
    ensures t != s ==> !t.isSetup && t.isPlayEnabled && !t.hasWon && t.stored == s.stored
  {
    if s.hasWon || (s.isPlayEnabled && !s.isSetup) then LoadAndPlay(s, s.starting) else s
  }

  /** E1 (src/App.js:78-90). */
  function Easy(s: State): (t: State)
    ensures t.grid == E1 && t.starting == E1 && t.selection == Some(Centre) && t.stored == s.stored
    ensures !t.isSetup && t.isPlayEnabled && !t.hasWon
  {
    LoadAndPlay(s.(starting := E1), E1)
  }

  /** Random (src/App.js:101-116), with the dealt 0/1 board as a parameter. */
  function Randomize(s: State, g: Grid): (t: State)
    requires IsBinary(g)
    ensures t.grid == g && t.starting == g && IsBinary(t.grid) && t.selection == Some(Centre)
    ensures !t.isSetup && t.isPlayEnabled && !t.hasWon && t.stored == s.stored
  {
    LoadAndPlay(s.(starting := g), g)
  }

  /** The keys handleOnKeyDown reacts to; R (background rotation) does not touch the session. */
  datatype Key = KeyE | KeyN | KeyW | KeyA | KeyS | KeyD | ArrowKey(dir: Dir) | OtherKey

  /** handleOnKeyDown (src/App.js:166-246). */
  ghost function OnKey(s: State, k: Key): (t: State)
    ensures t.stored == s.stored
    ensures k != KeyN && (s.hasWon || k == OtherKey) ==> t == s
    ensures k != KeyN && k != KeyE ==> t.isSetup == s.isSetup
  {
    if k == KeyN then Reset(s)
    else if s.hasWon then s
    else if k == KeyE then ToggleMode(s)
    else if s.isSetup then s
    else
      match k
      case KeyW => Shove(s, Up)
      case KeyS => Shove(s, Down)
      case KeyA => Shove(s, Left)
      case KeyD => Shove(s, Right)
      case ArrowKey(d) => Arrow(s, d)
      case _ => s
  }

  /** Every event the session reacts to. */
  datatype Event =
    | CellClicked(p: Pos)
    | GustClicked(d: Dir)
    | KeyPressed(k: Key)
    | ModeClicked
    | StoreClicked
    | RecallClicked
    | ClearClicked
    | EmptyClicked
    | RestartClicked
    | EasyClicked
    | RandomClicked(dealt: Grid)

  /** What the presentation layer guarantees of an event: clicks land on the board, Random deals 0s and 1s. */
  ghost predicate WellFormed(e: Event) {
    match e
    case CellClicked(p) => InGrid(p)
    case RandomClicked(g) => IsBinary(g)
    case _ => true
  }

  ghost function Apply(s: State, e: Event): State
    requires WellFormed(e)
  {
    match e
    case CellClicked(p) => Click(s, p)
    case GustClicked(d) => Shove(s, d)
    case KeyPressed(k) => OnKey(s, k)
    case ModeClicked => ToggleMode(s)
    case StoreClicked => Store(s)
    case RecallClicked => Recall(s)
    case ClearClicked => Clear(s)
    case EmptyClicked => Reset(s)
    case RestartClicked => Restart(s)
    case EasyClicked => Easy(s)
    case RandomClicked(g) => Randomize(s, g)
  }

  /**
   * What every reachable session satisfies: each board holds only tokens
   * (0, 1, -1, 3, 4 and the negations of 3 and 4), a board in Setup has no
   * negative token, and in Play before a win the Play control is enabled.
   */
  ghost predicate Inv(s: State) {
    && AllTokens(s.grid)
    && AllTokens(s.starting)
    && (s.stored.Some? ==> AllTokens(s.stored.value))
    && (s.isSetup ==> NoNegative(s.grid))
    && (!s.isSetup && !s.hasWon ==> s.isPlayEnabled)
  }

  lemma AbsGridTokens(g: Grid)
    requires AllTokens(g)
    ensures AllTokens(AbsGrid(g)) && NoNegative(AbsGrid(g))
  {
    AbsGridFacts(g);
  }

  lemma SettleTokens(s: State, g: Grid)
    requires AllTokens(g)
    ensures AllTokens(Settle(s, g).grid)
    ensures Settle(s, g).hasWon || Settle(s, g).isPlayEnabled == s.isPlayEnabled
  {
    FrozenTokens(g);
  }

  lemma ShiftedTokens(g: Grid, d: Dir, line: int)
    requires AllTokens(g)
    ensures AllTokens(Shifted(g, d, line))
  {
  }

  lemma InitialInv()
    ensures Inv(Initial())
  {
  }

  /** Every event keeps the session invariant. */
  lemma EventKeepsInv(s: State, e: Event)
    requires Inv(s) && WellFormed(e)
    ensures Inv(Apply(s, e))
  {
    match e
    case CellClicked(p) => ClickKeepsInv(s, p);
    case GustClicked(d) => ShoveKeepsInv(s, d);
    case KeyPressed(k) => KeyKeepsInv(s, k);
    case ModeClicked => ToggleModeKeepsInv(s);
    case RecallClicked => RecallKeepsInv(s);
    case _ =>
  }

  lemma ClickKeepsInv(s: State, p: Pos)
    requires Inv(s) && InGrid(p)
    ensures Inv(Click(s, p))
  {
    AbsGridTokens(s.grid);
  }

  lemma RecallKeepsInv(s: State)
    requires Inv(s)
    ensures Inv(Recall(s))
  {
    if s.stored.Some? {
      AbsGridTokens(s.stored.value);
    }
  }

  lemma KeyKeepsInv(s: State, k: Key)
    requires Inv(s)
    ensures Inv(OnKey(s, k))
  {
    if k != KeyN && !s.hasWon {
      if k == KeyE {
        ToggleModeKeepsInv(s);
      } else if !s.isSetup {
        match k
        case KeyW => ShoveKeepsInv(s, Up);
        case KeyS => ShoveKeepsInv(s, Down);
        case KeyA => ShoveKeepsInv(s, Left);
        case KeyD => ShoveKeepsInv(s, Right);
        case ArrowKey(d) => ArrowKeepsInv(s, d);
        case _ =>
      }
    }
  }

  lemma ShoveKeepsInv(s: State, d: Dir)
    requires Inv(s)
    ensures Inv(Shove(s, d))
  {
    if !s.hasWon && !s.isSetup && s.selection.Some? && ShoveLegal(s.grid, d, s.selection.value) {
      var p := s.selection.value;
      ShiftedTokens(s.grid, d, LineOf(p, d));
      SettleTokens(s.(selection := Some(Step(p, d))), Shifted(s.grid, d, LineOf(p, d)));
    }
  }

  lemma ArrowKeepsInv(s: State, d: Dir)
    requires Inv(s)
    ensures Inv(Arrow(s, d))
  {
    if !s.hasWon && !s.isSetup && s.selection.Some? {
      var p := s.selection.value;
      if InGrid(p) && ArrowTaken(d, p) {
        SwapKeepsMagnitudes(s.grid, p, Step(p, d));
      }
    }
  }

  lemma ToggleModeKeepsInv(s: State)
    requires Inv(s)
    ensures Inv(ToggleMode(s))
  {
    AbsGridTokens(s.grid);
    SettleTokens(s, AbsGrid(s.grid));
  }

  /** A shove whose far-end cell holds a token, or whose line is off the board, changes nothing. */
  lemma ShoveRefused(s: State, d: Dir)
    requires s.selection.Some? && !ShoveLegal(s.grid, d, s.selection.value)
    ensures Shove(s, d) == s
  {
  }

  /**
   * A legal shove moves the selection one step, runs the win check on the
   * shoved board and touches nothing else; ShoveCarriesSelection and
   * ShoveKeepsShardCount say what the shoved board holds.
   */
  lemma LegalShove(s: State, d: Dir)
    requires !s.hasWon && !s.isSetup && s.selection.Some?
    requires ShoveLegal(s.grid, d, s.selection.value)
    ensures var p := s.selection.value;
      var t := Shove(s, d);
      && t == Settle(s.(selection := Some(Step(p, d))), Shifted(s.grid, d, LineOf(p, d)))
      && t.selection == Some(Step(p, d))
      && !t.isSetup && t.starting == s.starting && t.stored == s.stored
  {
  }

  /** The win check replaces the board, so whatever board the session held before does not matter. */
  lemma SettleIgnoresGrid(s: State, g: Grid, h: Grid)
    ensures Settle(s.(grid := h), g) == Settle(s, g)
  {
  }

  /**
   * The win check after a move wins exactly when the board is one
   * connected region; a win freezes every cell to 3 or 4, with the 4s
   * exactly on the non-zero cells, sets hasWon and disables Play.
   */
  lemma SettleWins(s: State, g: Grid)
    ensures var t := Settle(s, g);
      && (t.hasWon <==> s.hasWon || AllConnected(g))
      && (AllConnected(g) ==> t.grid == Frozen(g) && !t.isPlayEnabled && FrozenShards(t.grid) == NonZero(g))
      && (AllConnected(g) ==> forall q | InGrid(q) :: At(t.grid, q) == FROZEN_EMPTY || At(t.grid, q) == FROZEN_SHARD)
      && (!AllConnected(g) ==> t == s.(grid := g))
  {
    WonIffConnected(g);
    FrozenTokens(g);
  }

  /**
   * A click in Setup normalises the board and toggles the clicked cell
   * (0 becomes 1, 1 becomes 0, and a frozen 3 or 4 becomes 0 or 1); Play is
   * enabled exactly when some cell is non-zero.
   */
  lemma ClickInSetup(s: State, p: Pos)
    requires Inv(s) && InGrid(p) && s.isSetup
    ensures var t := Click(s, p);
      && At(t.grid, p) == (if Abs(At(s.grid, p)) == EMPTY || Abs(At(s.grid, p)) == FROZEN_SHARD then SHARD else EMPTY)
      && (forall q | InGrid(q) && q != p :: At(t.grid, q) == Abs(At(s.grid, q)))
      && NoNegative(t.grid)
      && (t.isPlayEnabled <==> exists q | InGrid(q) :: At(t.grid, q) != EMPTY)
      && t.isSetup && t.selection == s.selection && t.hasWon == s.hasWon
  {
    var t := Click(s, p);
    if t.isPlayEnabled {
      var q :| q in NonZero(t.grid);
    }
  }

  /**
   * A click in Play before a win normalises the board, negates the clicked
   * cell and selects it, so no other cell is negative; after a win it
   * changes nothing.
   */
  lemma ClickInPlay(s: State, p: Pos)
    requires InGrid(p) && !s.isSetup
    ensures var t := Click(s, p);
      && (s.hasWon ==> t == s)
      && (!s.hasWon ==>
            && t.selection == Some(p)
            && At(t.grid, p) == -Abs(At(s.grid, p))
            && (forall q | InGrid(q) && At(t.grid, q) < 0 :: q == p)
            && AbsGrid(t.grid) == AbsGrid(s.grid)
            && t.hasWon == s.hasWon && t.isPlayEnabled == s.isPlayEnabled)
  {
    if !s.hasWon {
      var t := Click(s, p);
      GridExt(AbsGrid(t.grid), AbsGrid(s.grid));
    }
  }

  /**
   * An arrow key either changes nothing or negates exactly the selected cell
   * and its neighbour and selects the neighbour; every magnitude is kept and
   * the win state is never touched.
   */
  lemma ArrowMove(s: State, d: Dir)
    ensures var t := Arrow(s, d);
      && AbsGrid(t.grid) == AbsGrid(s.grid)
      && t.hasWon == s.hasWon && t.isPlayEnabled == s.isPlayEnabled && t.isSetup == s.isSetup
      && (t != s ==>
            && !s.hasWon && !s.isSetup && s.selection.Some?
            && var p := s.selection.value;
               var n := Step(p, d);
               && InGrid(p) && InGrid(n) && t.selection == Some(n)
               && At(t.grid, p) == -At(s.grid, p) && At(t.grid, n) == -At(s.grid, n)
               && (forall q | InGrid(q) && q != p && q != n :: At(t.grid, q) == At(s.grid, q)))
    ensures Arrow(s, d) != s <==>
      !s.hasWon && !s.isSetup && s.selection.Some? && InGrid(s.selection.value) && ArrowTaken(d, s.selection.value)
  {
    if !s.hasWon && !s.isSetup && s.selection.Some? {
      var p := s.selection.value;
      if InGrid(p) && ArrowTaken(d, p) {
        SwapKeepsMagnitudes(s.grid, p, Step(p, d));
      }
    }
  }

  /**
   * ArrowDown from the last column is refused, as the guard of
   * src/App.js:229 compares the column with the row count, even where the
   * cell below is on the board.
   */
  lemma ArrowDownRefusedFromLastColumn(s: State, p: Pos)
    requires !s.hasWon && !s.isSetup && s.selection == Some(p)
    requires InGrid(p) && p.col == Cols - 1
    ensures Arrow(s, Down) == s
    ensures p.row < Rows - 1 ==> InGrid(Step(p, Down))
  {
  }

  /** Store is refused while a frozen shard is on the board; otherwise it keeps a copy of the board. */
  lemma StoreCopies(s: State)
    ensures (forall q | InGrid(q) :: At(s.grid, q) != FROZEN_SHARD) ==> Store(s) == s.(stored := Some(s.grid))
    ensures (exists q | InGrid(q) :: At(s.grid, q) == FROZEN_SHARD) ==> Store(s) == s
  {
    if exists q | InGrid(q) :: At(s.grid, q) == FROZEN_SHARD {
      var q :| InGrid(q) && At(s.grid, q) == FROZEN_SHARD;
      assert q in FrozenShards(s.grid);
    }
  }

  /**
   * Recall loads the stored board (normalised in Setup), keeps its own copy
   * and the selection, clears hasWon, and settles the mode: Setup stays in
   * Setup with Play enabled iff the board is not empty; Play drops to Setup
   * with Play disabled exactly when the recalled board is empty.
   */
  lemma RecallLoads(s: State)
    requires s.stored.Some?
    ensures var t := Recall(s); var g := s.stored.value;
      && t.grid == (if s.isSetup then AbsGrid(g) else g)
      && t.stored == s.stored && t.selection == s.selection && !t.hasWon
      && (s.isSetup ==> t.isSetup && (t.isPlayEnabled <==> NonZero(g) != {}))
      && (!s.isSetup ==> (t.isSetup <==> NonZero(g) == {}) && t.isPlayEnabled == !t.isSetup)
  {
    AbsGridFacts(s.stored.value);
  }

  /** Store followed by Recall gives back the board, normalised when in Setup. */
  lemma StoreThenRecall(s: State)
    requires Inv(s)
    requires FrozenShards(s.grid) == {}
    ensures Recall(Store(s)).grid == s.grid
    ensures Recall(Store(s)).stored == Some(s.grid)
  {
    if s.isSetup {
      AbsGridFacts(s.grid);
    }
  }

  /**
   * Restart, when allowed, brings back the starting board in Play with the
   * centre selected and the win cleared; otherwise it changes nothing. E1
   * and Random first make their board the starting board, so a Restart
   * straight after either changes nothing.
   */
  lemma RestartReplays(s: State, dealt: Grid)
    requires IsBinary(dealt)
    ensures var t := Restart(s);
      && (s.hasWon || (s.isPlayEnabled && !s.isSetup) ==>
            && t.grid == s.starting && t.starting == s.starting && t.stored == s.stored
            && t.selection == Some(Centre) && !t.isSetup && t.isPlayEnabled && !t.hasWon)
      && (!s.hasWon && (!s.isPlayEnabled || s.isSetup) ==> t == s)
    ensures Easy(s).grid == E1 && Restart(Easy(s)) == Easy(s)
    ensures Randomize(s, dealt).grid == dealt && Restart(Randomize(s, dealt)) == Randomize(s, dealt)
  {
  }

  /** Clear forgets the stored board and nothing else, so a Recall after it changes nothing. */
  lemma ClearForgets(s: State)
    ensures Clear(s).stored.None? && Clear(s).(stored := s.stored) == s
    ensures Recall(Clear(s)) == Clear(s)
  {
  }

  /** Reset empties the board into Setup with Play disabled, and a second Reset changes nothing. */
  lemma ResetIdempotent(s: State)
    ensures NonZero(Reset(s).grid) == {}
    ensures Reset(s).isSetup && !Reset(s).isPlayEnabled && !Reset(s).hasWon
    ensures Reset(Reset(s)) == Reset(s)
  {
  }

  /**
   * Play to Setup normalises and drops the selection. Setup to Play runs the
   * win check on the normalised board: it wins exactly when that board is one
   * region, and the (possibly frozen) result becomes the starting board.
   * With Play disabled, the control leaves the session as it is.
   */
  lemma ToggleModeSteps(s: State)
    ensures var t := ToggleMode(s); var next := AbsGrid(s.grid);
      && (!s.isSetup ==> t.isSetup && t.selection.None? && t.grid == next && NoNegative(t.grid))
      && (s.isSetup && s.isPlayEnabled ==>
            && !t.isSetup && t.starting == t.grid
            && (AllConnected(next) ==> t.hasWon && !t.isPlayEnabled && t.grid == Frozen(next))
            && (!AllConnected(next) ==> t.grid == next && t.hasWon == s.hasWon && t.isPlayEnabled))
      && (s.isSetup && !s.isPlayEnabled ==> t == s)
  {
    AbsGridFacts(s.grid);
    WonIffConnected(AbsGrid(s.grid));
  }
}
