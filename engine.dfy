/**
 * The Flood game engine as an object: the live board and the history slots are
 * two-dimensional arrays, the fill is the recursive visited-mask traversal, and the
 * turn loop updates the move count, the history cursor and the won flag field by
 * field. Abs() reads the object's state as a Game.State, and every method is proved
 * to change it as the Game function of the same name does.
 */
module Engine {
  import opened FloodFill
  import opened Game

  /** The contents of a two-dimensional array (a board or a visited mask), row by row. */
  ghost function Cells<T>(a: array2<T>): (g: seq<seq<T>>)
    reads a
    ensures |g| == a.Length0 && forall x :: 0 <= x < a.Length0 ==> |g[x]| == a.Length1
    ensures forall x, y :: 0 <= x < a.Length0 && 0 <= y < a.Length1 ==> g[x][y] == a[x, y]
  {
    seq(a.Length0, x requires 0 <= x < a.Length0 reads a =>
      seq(a.Length1, y requires 0 <= y < a.Length1 reads a => a[x, y]))
  }

  /** The values of each history slot. */
  ghost function Snapshots(h: seq<array2<int>>): (r: seq<Grid>)
    reads set a | a in h
    ensures |r| == |h| && forall k :: 0 <= k < |h| ==> r[k] == Cells(h[k])
  {
    seq(|h|, k requires 0 <= k < |h| reads set a | a in h => Cells(h[k]))
  }

  lemma GridsEqual(g: Grid, h: Grid, n: nat)
    requires IsSquare(g, n) && IsSquare(h, n)
    requires forall x, y :: 0 <= x < n && 0 <= y < n ==> g[x][y] == h[x][y]
    ensures g == h
  {
    forall x | 0 <= x < n ensures g[x] == h[x] {
      assert forall y :: 0 <= y < n ==> g[x][y] == h[x][y];
    }
  }

  class Flood {
    const size: nat
    const maxMovesNum: nat
    /** The live board; after an undo it is one of the history slots. */
    var board: array2<int>
    /** The visited mask of the last fill. */
    var visited: array2<bool>
    /** The history: max_moves_num board arrays. */
    const history: seq<array2<int>>
    var historyIndex: nat
    var movesNum: nat
    var isGameWon: bool
    /** Which history slot the live board is, if any. */
    ghost var alias: Option<nat>
    /** The arrays the game may write: the starting board and the history slots. */
    ghost const Repr: set<object>

    ghost predicate Valid()
      reads `board, `alias, `historyIndex, `movesNum
    {
      && board in Repr
      && (forall a :: a in history ==> a in Repr)
      && board.Length0 == size && board.Length1 == size
      && |history| == maxMovesNum
      && (forall k :: 0 <= k < |history| ==> history[k].Length0 == size && history[k].Length1 == size)
      && (forall j, k :: 0 <= j < k < |history| ==> history[j] != history[k])
      && (match alias
          case None => forall k :: 0 <= k < |history| ==> history[k] != board
          case Some(k) => k < |history| && history[k] == board)
      && historyIndex <= movesNum <= maxMovesNum
    }

    ghost function Abs(): (s: State)
      reads `board, `alias, `historyIndex, `movesNum, `isGameWon, Repr
      requires Valid()
      ensures Consistent(s) && s.index <= s.moves <= s.maxMoves
    {
      State(size, maxMovesNum, Cells(board), Snapshots(history), alias, historyIndex, movesNum, isGameWon)
    }

    /** A new game on the given board, with max_moves_num zero-filled history slots. */
    constructor (size: nat, maxMovesNum: nat, initialBoard: array2<int>)
      requires initialBoard.Length0 == size && initialBoard.Length1 == size
      ensures Valid() && fresh(Repr - {initialBoard})
      ensures board == initialBoard && Abs() == Init(size, maxMovesNum, Cells(initialBoard))
    {
      var slots: seq<array2<int>> := [];
      while |slots| < maxMovesNum
        invariant |slots| <= maxMovesNum
        invariant forall a :: a in slots ==> fresh(a) && a.Length0 == size && a.Length1 == size
        invariant forall j, k :: 0 <= j < k < |slots| ==> slots[j] != slots[k]
        invariant forall a :: a in slots ==> Cells(a) == Zeros(size)
      {
        var a := new int[size, size]((_, _) => 0);
        GridsEqual(Cells(a), Zeros(size), size);
        slots := slots + [a];
      }
      this.size := size;
      this.maxMovesNum := maxMovesNum;
      board := initialBoard;
      visited := new bool[size, size]((_, _) => false);
      history := slots;
      historyIndex, movesNum, isGameWon := 0, 0, false;
      alias := None;
      Repr := {initialBoard} + set a | a in slots;
      new;
      assert Snapshots(history) == seq(maxMovesNum, _ => Zeros(size));
    }

    /** Copy the live board's values into the history slot at the cursor. */
    method SaveBoard()
      requires Valid() && historyIndex < |history|
      modifies history[historyIndex]
      ensures Valid() && Abs() == Game.SaveBoard(old(Abs()))
    {
      ghost var b := Cells(board);
      var slot := history[historyIndex];
      forall x, y | 0 <= x < size && 0 <= y < size {
        slot[x, y] := board[x, y];
      }
      GridsEqual(Cells(board), b, size);
      GridsEqual(Cells(slot), b, size);
      SnapshotsAfterWrite(historyIndex);
    }

    /** Step the cursor back and make the live board be the slot there, sharing its array. */
    method RestorePrevBoard()
      requires Valid() && historyIndex <= |history|
      modifies this`historyIndex, this`board, this`alias
      ensures Valid() && Abs() == Game.RestorePrevBoard(old(Abs()))
      ensures old(historyIndex) > 0 ==> board == history[historyIndex]
    {
      if historyIndex <= 0 {
        return;
      }
      historyIndex := historyIndex - 1;
      board := history[historyIndex];
      alias := Some(historyIndex);
      assert Snapshots(history) == old(Snapshots(history));
      assert Valid();
    }

    /** Writing only the history slot k changes only the k-th snapshot. */
    twostate lemma SnapshotsAfterWrite(k: nat)
      requires k < |history| && forall i, j :: 0 <= i < j < |history| ==> history[i] != history[j]
      requires forall j :: 0 <= j < |history| && j != k ==> unchanged(history[j])
      ensures Snapshots(history) == old(Snapshots(history))[k := Cells(history[k])]
    {
      forall j | 0 <= j < |history| && j != k ensures Cells(history[j]) == old(Cells(history[j])) {
        assert unchanged(history[j]);
      }
    }

    twostate lemma SnapshotsUnchanged()
      requires forall j :: 0 <= j < |history| ==> unchanged(history[j])
      ensures Snapshots(history) == old(Snapshots(history))
    {
      forall j | 0 <= j < |history| ensures Cells(history[j]) == old(Cells(history[j])) {
        assert unchanged(history[j]);
      }
    }

    /** The win test's scan: whether every tile equals the corner tile. */
    method AllTilesMatchCorner() returns (possibleWin: bool)
      requires Valid() && size > 0
      ensures possibleWin <==> IsUniform(Cells(board), size)
    {
      possibleWin := true;
      var colour := board[0, 0];
      var x := 0;
      while x < size
        invariant 0 <= x <= size
        invariant possibleWin <==> forall i, j :: 0 <= i < x && 0 <= j < size ==> board[i, j] == colour
      {
        var y := 0;
        while y < size
          invariant 0 <= y <= size
          invariant possibleWin <==>
            (forall i, j :: 0 <= i < x && 0 <= j < size ==> board[i, j] == colour) &&
            (forall j :: 0 <= j < y ==> board[x, j] == colour)
        {
          if board[x, y] != colour {
            possibleWin := false;
          }
          y := y + 1;
        }
        x := x + 1;
      }
    }

    /** The win test run after every board change; a win sets the flag, nothing clears it. */
    method CheckForWin()
      requires Valid() && size > 0
      modifies this`isGameWon
      ensures Valid() && Abs() == Game.CheckForWin(old(Abs()))
    {
      var possibleWin := AllTilesMatchCorner();
      if possibleWin {
        isGameWon := true;
      }
    }

    /**
     * The game: the win test on the starting board, the first save, then one turn per
     * command while moves remain and the game is not won. `cmds` are the player's
     * letters, already decoded; the game stops with AwaitingInput when they run out,
     * and with IndexError where the code indexes past the board or the history.
     */
    method Play(cmds: seq<Command>) returns (outcome: Outcome)
      requires Valid()
      modifies this, Repr
      ensures Valid()
      ensures Game.Play(old(Abs()), cmds) == Ending(Abs(), outcome)
    {
      if size == 0 {
        return IndexError;
      }
      ghost var s := Abs();
      CheckForWin();
      PlayStarts(s, Abs(), cmds);
      if historyIndex >= |history| {
        return IndexError;
      }
      SaveBoard();
      outcome := Loop(cmds);
    }

    /** The turn loop: one turn per command while moves remain and the game is not won. */
    method Loop(cmds: seq<Command>) returns (outcome: Outcome)
      requires Valid() && Resting(Abs())
      modifies this, Repr
      ensures Valid()
      ensures Game.Loop(old(Abs()), cmds) == Ending(Abs(), outcome)
    {
      var i := 0;
      while movesNum < maxMovesNum && !isGameWon && i < |cmds|
        invariant Valid() && i <= |cmds| && Resting(Abs())
        invariant Game.Loop(old(Abs()), cmds) == Game.Loop(Abs(), cmds[i..])
      {
        ghost var t := Abs();
        var crashed := Turn(cmds[i]);
        LoopStep(t, cmds, i, crashed, Abs());
        if crashed {
          return IndexError;
        }
        i := i + 1;
      }
      LoopStops(Abs(), cmds[i..]);
      if isGameWon {
        outcome := Won;
      } else if movesNum >= maxMovesNum {
        outcome := Lost;
      } else {
        outcome := AwaitingInput;
      }
    }

    /** One pass of the turn loop: count the move, then carry out the command. */
    method Turn(cmd: Command) returns (crashed: bool)
      requires Valid() && Resting(Abs()) && movesNum < maxMovesNum
      modifies this, Repr
      ensures Valid()
      ensures crashed == Game.Turn(old(Abs()), cmd).Crashed? && Abs() == Game.Turn(old(Abs()), cmd).state
    {
      ghost var s := Abs();
      CountMove();
      TurnIsCountedStep(s, Abs(), cmd);
      crashed := Step(cmd);
    }

    /** Undo, or a colour move; then the win test, unless the save crashed. */
    method Step(cmd: Command) returns (crashed: bool)
      requires Valid() && Resting(Abs()) && historyIndex < movesNum
      modifies this, Repr
      ensures Valid()
      ensures crashed == Game.Step(old(Abs()), cmd).Crashed? && Abs() == Game.Step(old(Abs()), cmd).state
    {
      match cmd
      case Undo =>
        RestorePrevBoard();
        CheckForWin();
        crashed := false;
      case Colour(c) =>
        crashed := ColourMove(c);
        if !crashed {
          CheckForWin();
        }
    }

    /** Count the turn against the budget. */
    method CountMove()
      requires Valid() && movesNum < maxMovesNum
      modifies this`movesNum
      ensures Valid() && Abs() == old(Abs()).(moves := old(Abs()).moves + 1)
    {
      movesNum := movesNum + 1;
    }

    /** The fill, then the cursor advances and the board is saved there, unless no slot is left. */
    method ColourMove(colour: int) returns (crashed: bool)
      requires Valid() && historyIndex < movesNum && size > 0
      modifies this`visited, this`historyIndex, Repr
      ensures Valid()
      ensures crashed == Game.ColourMove(old(Abs()), colour).Crashed? && Abs() == Game.ColourMove(old(Abs()), colour).state
    {
      SpreadColour(colour);
      ghost var s := Abs();
      historyIndex := historyIndex + 1;
      assert Abs() == s.(index := s.index + 1);
      if historyIndex >= |history| {
        return true;
      }
      SaveBoard();
      crashed := false;
    }

    // ---------------------------------------------------------------- the fill

    /** The live board and the visited mask are size by size. */
    ghost predicate Shapes()
      reads this
    {
      board.Length0 == size && board.Length1 == size && visited.Length0 == size && visited.Length1 == size
    }

    /** Tiles already visited hold the new colour; the others still hold their value from before the fill. */
    ghost predicate Painted(g: Grid, newColour: int)
      reads this, board, visited
      requires IsSquare(g, size)
      requires Shapes()
    {
      forall i, j :: 0 <= i < size && 0 <= j < size ==> board[i, j] == if visited[i, j] then newColour else g[i][j]
    }

    ghost predicate VisitedInRegion(g: Grid)
      reads this, visited
      requires IsSquare(g, size)
      requires visited.Length0 == size && visited.Length1 == size
    {
      forall i, j {:trigger InRegion(g, size, (i, j))} :: 0 <= i < size && 0 <= j < size && visited[i, j] ==> InRegion(g, size, (i, j))
    }

    /** Repaint the corner's region with `colour`, with a fresh visited mask. */
    method SpreadColour(colour: int)
      requires Valid() && size > 0
      modifies this`visited, board
      ensures Valid() && Abs() == Game.SpreadColour(old(Abs()), colour)
      ensures visited.Length0 == size && visited.Length1 == size
      ensures forall x, y :: 0 <= x < size && 0 <= y < size ==>
        (visited[x, y] <==> InRegion(old(Cells(board)), size, (x, y)))
    {
      ghost var g := Cells(board);
      visited := new bool[size, size]((_, _) => false);
      ghost var m0 := Cells(visited);
      FreshMaskStartsFill(g, m0, colour);
      SpreadColourToNeighbors(0, 0, colour, g, [(0, 0)]);
      FillCommits();
      TraversalIsFlood(g, m0, colour);
      FillIsSpread(colour);
    }

    /** A fresh mask over the board g sets up the traversal's precondition at the corner. */
    lemma FreshMaskStartsFill(g: Grid, m0: Mask, colour: int)
      requires Shapes() && size > 0 && g == Cells(board) && m0 == Cells(visited)
      requires forall i, j :: 0 <= i < size && 0 <= j < size ==> !visited[i, j]
      ensures IsSquare(g, size) && IsSquare(m0, size) && Witness(g, size, [(0, 0)], (0, 0)) && !visited[0, 0]
      ensures Painted(g, colour) && VisitedInRegion(g)
      ensures forall i, j :: 0 <= i < size && 0 <= j < size ==> !m0[i][j]
    {
    }

    /** A traversal from the corner that closed every tile it marked painted exactly the corner's region. */
    lemma TraversalIsFlood(g: Grid, m0: Mask, colour: int)
      requires Shapes() && IsSquare(g, size) && IsSquare(m0, size) && size > 0 && visited[0, 0]
      requires forall i, j :: 0 <= i < size && 0 <= j < size ==> !m0[i][j]
      requires Filled(g, m0, colour)
      ensures Cells(board) == Flooded(g, size, colour)
      ensures forall x, y :: 0 <= x < size && 0 <= y < size ==> (visited[x, y] <==> InRegion(g, size, (x, y)))
    {
      MaskIsRegion(g, size, Cells(visited));
      GridsEqual(Cells(board), Flooded(g, size, colour), size);
    }

    /** Repainting the live board's array alone changes the board and, when it is a slot, that slot. */
    twostate lemma FillCommits()
      requires old(Valid())
      requires board == old(board) && alias == old(alias)
      requires historyIndex == old(historyIndex) && movesNum == old(movesNum) && isGameWon == old(isGameWon)
      requires forall k :: 0 <= k < |history| && history[k] != board ==> unchanged(history[k])
      ensures Valid()
      ensures Abs() == old(Abs()).(board := Cells(board),
        slots := if alias.Some? then old(Abs()).slots[alias.value := Cells(board)] else old(Abs()).slots)
    {
      if alias.Some? {
        SnapshotsAfterWrite(alias.value);
      } else {
        SnapshotsUnchanged();
      }
    }

    /** A repainting that produced the flood of the old board is the abstract fill. */
    twostate lemma FillIsSpread(colour: int)
      requires old(Valid()) && Valid()
      requires Abs() == old(Abs()).(board := Cells(board),
        slots := if alias.Some? then old(Abs()).slots[alias.value := Cells(board)] else old(Abs()).slots)
      requires Cells(board) == Flooded(old(Cells(board)), size, colour)
      ensures Abs() == Game.SpreadColour(old(Abs()), colour)
    {
    }

    /**
     * Paint tile (x, y), mark it visited, then try its neighbours down, right, up and
     * left. `path` is a ghost witness that (x, y) is in the region of g, the board
     * before the fill.
     */
    method SpreadColourToNeighbors(x: nat, y: nat, newColour: int, ghost g: Grid, ghost path: seq<Cell>)
      requires Shapes()
      requires IsSquare(g, size) && x < size && y < size && !visited[x, y] && Witness(g, size, path, (x, y))
      requires Painted(g, newColour) && VisitedInRegion(g)
      modifies board, visited
      ensures visited[x, y] && Filled(g, old(Cells(visited)), newColour)
      decreases Unvisited(Cells(visited), size), 1
    {
      ghost var m0 := Cells(visited);
      assert InRegion(g, size, (x, y));
      var oldColour := board[x, y];
      assert oldColour == g[0][0];
      board[x, y] := newColour;
      visited[x, y] := true;
      MarkingStartsProgress(g, m0, newColour, x, y);
      assert (x, y) in Unvisited(m0, size);
      for k := 0 to 4
        invariant Progress(g, m0, newColour, x, y) && NeighboursDone(g, x, y, k)
      {
        var (nx, ny) := Neighbour(x, y, k);
        SpreadToNeighbour(nx, ny, k, oldColour, newColour, g, m0, x, y, path);
      }
      ProgressEnds(g, m0, newColour, x, y);
    }

    /**
     * One neighbour test of the traversal at (x, y): enter (nx, ny) when it is in
     * bounds, not yet visited, and still has the colour (x, y) had.
     */
    method SpreadToNeighbour(nx: int, ny: int, ghost k: nat, oldColour: int, newColour: int,
                             ghost g: Grid, ghost m0: Mask, ghost x: nat, ghost y: nat, ghost path: seq<Cell>)
      requires Shapes()
      requires IsSquare(g, size) && IsSquare(m0, size) && x < size && y < size && !m0[x][y] && Witness(g, size, path, (x, y))
      requires k < 4 && (nx, ny) == Neighbour(x, y, k) && oldColour == g[0][0]
      requires Progress(g, m0, newColour, x, y) && NeighboursDone(g, x, y, k)
      modifies board, visited
      ensures Progress(g, m0, newColour, x, y) && NeighboursDone(g, x, y, k + 1)
      decreases Unvisited(m0, size) - {(x, y)}, 2
    {
      if 0 <= nx < size && 0 <= ny < size && !visited[nx, ny] && board[nx, ny] == oldColour {
        ghost var before := Cells(visited);
        UnvisitedShrinks(m0, before, size, x, y);
        WitnessExtend(g, size, path, (nx, ny));
        SpreadColourToNeighbors(nx, ny, newColour, g, path + [(nx, ny)]);
        ClosedPersists(g, size, before, Cells(visited));
      }
    }

    /**
     * The first k neighbours of (x, y), in the order down, right, up, left, are
     * visited where they are in bounds and have the corner's colour.
     */
    ghost predicate NeighboursDone(g: Grid, x: nat, y: nat, k: nat)
      reads this, visited
      requires IsSquare(g, size) && x < size && y < size && k <= 4
      requires visited.Length0 == size && visited.Length1 == size
    {
      forall d :: 0 <= d < k && InBounds(size, Neighbour(x, y, d)) && g[Neighbour(x, y, d).0][Neighbour(x, y, d).1] == g[0][0] ==>
        visited[Neighbour(x, y, d).0, Neighbour(x, y, d).1]
    }

    /** Painting and marking the tile a traversal enters sets up its invariant there. */
    lemma MarkingStartsProgress(g: Grid, m0: Mask, newColour: int, x: nat, y: nat)
      requires Shapes() && IsSquare(g, size) && IsSquare(m0, size) && x < size && y < size
      requires forall i, j :: 0 <= i < size && 0 <= j < size && (i, j) != (x, y) ==>
        visited[i, j] == m0[i][j] && board[i, j] == if m0[i][j] then newColour else g[i][j]
      requires forall i, j :: 0 <= i < size && 0 <= j < size && m0[i][j] ==> InRegion(g, size, (i, j))
      requires InRegion(g, size, (x, y)) && board[x, y] == newColour && visited[x, y]
      ensures Progress(g, m0, newColour, x, y) && NeighboursDone(g, x, y, 0)
    {
    }

    /** Once all four neighbours are done, the invariant gives the contract of a traversal entered at (x, y). */
    lemma ProgressEnds(g: Grid, m0: Mask, newColour: int, x: nat, y: nat)
      requires Shapes() && IsSquare(g, size) && IsSquare(m0, size) && x < size && y < size
      requires Progress(g, m0, newColour, x, y) && NeighboursDone(g, x, y, 4)
      ensures visited[x, y] && Filled(g, m0, newColour)
    {
      AllNeighboursDoneIsClosed(g, x, y);
    }

    lemma AllNeighboursDoneIsClosed(g: Grid, x: nat, y: nat)
      requires IsSquare(g, size) && x < size && y < size
      requires visited.Length0 == size && visited.Length1 == size
      requires NeighboursDone(g, x, y, 4)
      ensures Closed(g, size, Cells(visited), x, y)
    {
      assert Neighbour(x, y, 0) == (x + 1, y) && Neighbour(x, y, 1) == (x, y + 1);
      assert Neighbour(x, y, 2) == (x - 1, y) && Neighbour(x, y, 3) == (x, y - 1);
    }

    /**
     * What a traversal call guarantees when it returns, for the mask m0 it was entered
     * with: the painting and region facts hold, marks are only added, and every tile
     * marked since entry is closed.
     */
    ghost predicate Filled(g: Grid, m0: Mask, newColour: int)
      reads this, board, visited
      requires IsSquare(g, size) && IsSquare(m0, size)
      requires Shapes()
    {
      && Painted(g, newColour) && VisitedInRegion(g)
      && (forall i, j :: 0 <= i < size && 0 <= j < size && m0[i][j] ==> visited[i, j])
      && (forall i, j {:trigger Closed(g, size, Cells(visited), i, j)} ::
            0 <= i < size && 0 <= j < size && visited[i, j] && !m0[i][j] ==> Closed(g, size, Cells(visited), i, j))
    }

    /**
     * The state of a fill entered at (x, y) with mask m0 on entry: the painting and
     * region facts hold, marks are only added, (x, y) is marked, and every other tile
     * marked since entry is closed.
     */
    ghost predicate Progress(g: Grid, m0: Mask, newColour: int, x: nat, y: nat)
      reads this, board, visited
      requires IsSquare(g, size) && IsSquare(m0, size) && x < size && y < size
      requires Shapes()
    {
      && Painted(g, newColour) && VisitedInRegion(g)
      && (forall i, j :: 0 <= i < size && 0 <= j < size && m0[i][j] ==> visited[i, j])
      && visited[x, y]
      && (forall i, j {:trigger Closed(g, size, Cells(visited), i, j)} ::
            0 <= i < size && 0 <= j < size && visited[i, j] && !m0[i][j] && (i, j) != (x, y) ==>
            Closed(g, size, Cells(visited), i, j))
    }
  }

  /** The k-th neighbour of (x, y) in the order the traversal tries them: down, right, up, left. */
  function Neighbour(x: int, y: int, k: nat): (d: Cell)
    requires k < 4
    ensures Adjacent((x, y), d)
  {
    if k == 0 then (x + 1, y) else if k == 1 then (x, y + 1) else if k == 2 then (x - 1, y) else (x, y - 1)
  }

  lemma UnvisitedShrinks(m0: Mask, m1: Mask, n: nat, x: int, y: int)
    requires IsSquare(m0, n) && IsSquare(m1, n) && 0 <= x < n && 0 <= y < n
    requires !m0[x][y] && m1[x][y]
    requires forall i, j :: 0 <= i < n && 0 <= j < n && m0[i][j] ==> m1[i][j]
    ensures Unvisited(m1, n) <= Unvisited(m0, n) - {(x, y)}
  {
  }

  /** Adding marks keeps a closed tile closed. */
  lemma ClosedPersists(g: Grid, n: nat, m0: Mask, m1: Mask)
    requires IsSquare(g, n) && IsSquare(m0, n) && IsSquare(m1, n)
    requires forall i, j :: 0 <= i < n && 0 <= j < n && m0[i][j] ==> m1[i][j]
    ensures forall i, j :: 0 <= i < n && 0 <= j < n && Closed(g, n, m0, i, j) ==> Closed(g, n, m1, i, j)
  {
  }
}
