/**
 * What the rules of Flood, as module Game states them, imply for single turns and
 * for whole games: the move count, the history cursor, undo, the bounds of the
 * history, the win and loss conditions, and the effect of an undo making the live
 * board share a history slot.
 */
module GameFacts {
  import opened FloodFill
  import opened Game

  // ---------------------------------------------------------------- single turns

  /**
   * An undo always counts one move and never crashes. At cursor 0 it keeps the
   * board and the cursor; otherwise the cursor steps back by one and the board
   * becomes the values of the slot there. The history itself is untouched.
   */
  lemma UndoTurn(s: State)
    requires Resting(s) && s.moves < s.maxMoves
    ensures var r := Turn(s, Undo);
      && r.Next?
      && r.state.moves == s.moves + 1
      && r.state.slots == s.slots
      && (s.index == 0 ==> r.state.index == 0 && r.state.board == s.board)
      && (s.index > 0 ==> r.state.index == s.index - 1 && r.state.board == s.slots[s.index - 1])
      && (r.state.won <==> s.won || IsUniform(r.state.board, s.size))
  {
  }

  /**
   * A colour move counts one move, fills the board, advances the cursor by one and
   * saves the filled board there; it crashes exactly when the advanced cursor is
   * past the last slot. When the live board is slot k, that slot is repainted as
   * well; every other slot keeps its values.
   */
  lemma ColourTurn(s: State, c: int)
    requires Resting(s) && s.moves < s.maxMoves
    ensures var r := Turn(s, Colour(c));
      && (r.Crashed? <==> s.index + 1 == s.maxMoves)
      && r.state.moves == s.moves + 1
      && r.state.index == s.index + 1
      && r.state.board == Flooded(s.board, s.size, c)
      && (r.Next? ==> r.state.slots[r.state.index] == r.state.board)
      && (forall k :: 0 <= k < |s.slots| && k != s.index + 1 ==>
            r.state.slots[k] == if s.alias == Some(k) then Flooded(s.board, s.size, c) else s.slots[k])
  {
    var s1 := s.(moves := s.moves + 1);
    assert Resting(s1) && s1.index < s1.moves;
  }

  /** A crash is a colour move on the last slot; it leaves the won flag as it was. */
  lemma CrashedTurn(s: State, cmd: Command)
    requires Resting(s) && s.moves < s.maxMoves && Turn(s, cmd).Crashed?
    ensures cmd.Colour? && s.index + 1 == s.maxMoves
    ensures Turn(s, cmd).state.won == s.won && Turn(s, cmd).state.index == s.maxMoves
  {
    if cmd.Undo? {
      UndoTurn(s);
    } else {
      ColourTurn(s, cmd.colour);
    }
  }

  /**
   * The save at a colour move does not protect an undone board: once an undo has
   * made the live board slot k, the next colour move repaints slot k, so the board
   * saved there is gone.
   */
  lemma ColourMoveAfterUndoRepaintsSlot(s: State, c: int)
    requires Resting(s) && s.moves < s.maxMoves && s.index > 0
    ensures var u := Turn(s, Undo).state;
      u.moves < u.maxMoves ==> Turn(u, Colour(c)).state.slots[s.index - 1] == Flooded(s.slots[s.index - 1], s.size, c)
  {
    UndoTurn(s);
    var u := Turn(s, Undo).state;
    if u.moves < u.maxMoves {
      ColourTurn(u, c);
    }
  }

  /**
   * Undoing a colour move brings back the board from before it when the live board
   * was not the slot at the cursor; when it was, the fill repainted that slot and the
   * undo brings back the filled board.
   */
  lemma UndoAfterColourMove(s: State, c: int)
    requires Resting(s) && s.moves + 1 < s.maxMoves && s.index + 1 < s.maxMoves
    ensures Turn(s, Colour(c)).Next?
    ensures var t := Turn(s, Colour(c)).state;
      Turn(t, Undo).state.board == if s.alias == Some(s.index) then Flooded(s.board, s.size, c) else s.board
  {
    ColourTurn(s, c);
    var t := Turn(s, Colour(c)).state;
    UndoTurn(t);
  }

  /** A won game stays won: no turn clears the flag. */
  lemma TurnKeepsWon(s: State, cmd: Command)
    requires Resting(s) && s.moves < s.maxMoves && s.won
    ensures Turn(s, cmd).state.won
  {
    if cmd.Undo? {
      UndoTurn(s);
    } else {
      var s1 := s.(moves := s.moves + 1);
      TurnIsCountedStep(s, s1, cmd);
    }
  }

  // ---------------------------------------------------------------- whole games

  /** The number of colour moves in a command sequence. */
  function ColourMoves(cmds: seq<Command>): (k: nat)
    ensures k <= |cmds|
  {
    if cmds == [] then 0 else (if cmds[0].Colour? then 1 else 0) + ColourMoves(cmds[1..])
  }

  /** A turn moves the cursor forward only on a colour move, and then by one. */
  lemma TurnAdvancesCursor(s: State, cmd: Command)
    requires Resting(s) && s.moves < s.maxMoves
    ensures Turn(s, cmd).state.index <= s.index + if cmd.Colour? then 1 else 0
  {
    if cmd.Undo? {
      UndoTurn(s);
    } else {
      ColourTurn(s, cmd.colour);
    }
  }

  /**
   * What the loop guarantees about its ending e, from state s with n commands of
   * which k are colour moves. Each turn counts exactly one move, so the move count
   * never passes the budget and grows by at most n, and the cursor grows by at most
   * k. The outcome is Won exactly when the won flag is set; Lost only with the
   * budget used up; AwaitingInput only when all n commands were played; IndexError
   * only from the save past the last slot.
   */
  predicate LoopEnd(s: State, n: nat, k: nat, e: Ending) {
    && s.moves <= e.state.moves <= e.state.maxMoves == s.maxMoves
    && e.state.moves <= s.moves + n
    && e.state.index <= s.index + k
    && (e.outcome == Won <==> e.state.won)
    && (e.outcome == Lost <==> e.outcome != IndexError && !e.state.won && e.state.moves == e.state.maxMoves)
    && (e.outcome == AwaitingInput ==> e.state.moves < e.state.maxMoves && e.state.moves == s.moves + n)
    && (e.outcome == IndexError ==> e.state.index == e.state.maxMoves && !e.state.won)
    && (e.outcome != IndexError ==> Resting(e.state))
  }

  /** How the turn loop ends: LoopEnd holds of every run of it. */
  lemma {:induction false} LoopOutcome(s: State, cmds: seq<Command>)
    requires Resting(s)
    ensures LoopEnd(s, |cmds|, ColourMoves(cmds), Loop(s, cmds))
    decreases |cmds|
  {
    if s.won || s.moves >= s.maxMoves || cmds == [] {
      LoopStops(s, cmds);
    } else {
      var r := Turn(s, cmds[0]);
      LoopStep(s, cmds, 0, r.Crashed?, r.state);
      assert cmds[0..] == cmds;
      if r.Crashed? {
        CrashedTurn(s, cmds[0]);
      } else {
        TurnAdvancesCursor(s, cmds[0]);
        LoopOutcome(r.state, cmds[1..]);
      }
    }
  }

  /** A game of colour moves only, started with the cursor level with the move count, is never lost. */
  lemma {:induction false} ColourOnlyLoopIsNeverLost(s: State, cmds: seq<Command>)
    requires Resting(s) && s.index == s.moves
    requires forall k :: 0 <= k < |cmds| ==> cmds[k].Colour?
    ensures Loop(s, cmds).outcome != Lost
    decreases |cmds|
  {
    if s.won || s.moves >= s.maxMoves || cmds == [] {
    } else {
      ColourTurn(s, cmds[0].colour);
      match Turn(s, cmds[0])
      case Crashed(t) =>
      case Next(t) =>
        ColourOnlyLoopIsNeverLost(t, cmds[1..]);
    }
  }

  /**
   * A new game of colour moves only is never lost: its budget and its history have
   * the same size, so the move that would use up the budget saves past the last
   * slot instead.
   */
  lemma ColourOnlyGameIsNeverLost(n: nat, maxMoves: nat, board: Grid, cmds: seq<Command>)
    requires IsSquare(board, n)
    requires forall k :: 0 <= k < |cmds| ==> cmds[k].Colour?
    ensures Play(Init(n, maxMoves, board), cmds).outcome != Lost
    ensures |cmds| >= maxMoves ==> Play(Init(n, maxMoves, board), cmds).outcome in {Won, IndexError}
  {
    var s := Init(n, maxMoves, board);
    GameOutcome(n, maxMoves, board, cmds);
    if n > 0 && maxMoves > 0 {
      PlayStarts(s, CheckForWin(s), cmds);
      ColourOnlyLoopIsNeverLost(SaveBoard(CheckForWin(s)), cmds);
    }
  }

  /** With a budget of no moves there is no slot for the first save: every game ends in an IndexError. */
  lemma NoBudgetIsIndexError(n: nat, board: Grid, cmds: seq<Command>)
    requires IsSquare(board, n)
    ensures Play(Init(n, 0, board), cmds).outcome == IndexError
  {
  }

  /** A new game on a uniform board is won before any move, whatever is typed. */
  lemma UniformBoardIsWonAtOnce(n: nat, maxMoves: nat, board: Grid, cmds: seq<Command>)
    requires IsSquare(board, n) && n > 0 && maxMoves > 0 && IsUniform(board, n)
    ensures var e := Play(Init(n, maxMoves, board), cmds);
      e.outcome == Won && e.state.moves == 0 && e.state.board == board
  {
    var s := Init(n, maxMoves, board);
    PlayStarts(s, CheckForWin(s), cmds);
  }

  /** How a new game ends, by the loop's guarantees. */
  lemma GameOutcome(n: nat, maxMoves: nat, board: Grid, cmds: seq<Command>)
    requires IsSquare(board, n)
    ensures var e := Play(Init(n, maxMoves, board), cmds);
      && e.state.moves <= maxMoves && e.state.moves <= |cmds|
      && e.state.index <= ColourMoves(cmds)
      && (e.outcome == Won <==> e.state.won && maxMoves > 0)
      && (e.outcome == Lost <==> e.outcome != IndexError && !e.state.won && e.state.moves == maxMoves)
      && (e.outcome == AwaitingInput ==> e.state.moves == |cmds| < maxMoves)
  {
    var s := Init(n, maxMoves, board);
    if n > 0 {
      PlayStarts(s, CheckForWin(s), cmds);
      if maxMoves > 0 {
        LoopOutcome(SaveBoard(CheckForWin(s)), cmds);
        assert LoopEnd(SaveBoard(CheckForWin(s)), |cmds|, ColourMoves(cmds), Play(s, cmds));
      }
    }
  }

  // ---------------------------------------------------------------- an undo that does not undo

  const CornerBoard: Grid := [[0, 1], [2, 3]]

  /** The corner of CornerBoard is a region of its own, so a fill repaints only the corner. */
  lemma CornerBoardFills(c: int)
    ensures Flooded(CornerBoard, 2, c) == [[c, 1], [2, 3]]
  {
    IsolatedCorner(CornerBoard, 2, c);
    var h := CornerBoard[0 := CornerBoard[0][0 := c]];
    assert h[0] == [c, 1] && h[1] == [2, 3];
  }

  /** The facts about a state of the game on CornerBoard that each of its turns needs. */
  predicate CornerAt(s: State, board: Grid, slot0: Grid, alias: Option<nat>, index: nat, moves: nat)
  {
    && Resting(s) && s.size == 2 && s.maxMoves == 4 && !s.won
    && s.board == board && s.slots[0] == slot0 && s.alias == alias && s.index == index && s.moves == moves
  }

  lemma CornerGameStarts(cmds: seq<Command>)
    ensures var s := Init(2, 4, CornerBoard);
      && CornerAt(SaveBoard(CheckForWin(s)), CornerBoard, CornerBoard, None, 0, 0)
      && Play(s, cmds) == Loop(SaveBoard(CheckForWin(s)), cmds)
  {
    var s := Init(2, 4, CornerBoard);
    assert !IsUniform(CornerBoard, 2) by {
      assert CornerBoard[0][1] != CornerBoard[0][0];
    }
    PlayStarts(s, CheckForWin(s), cmds);
  }

  /** "b": the corner alone turns blue, and the board is saved in slot 1. */
  lemma CornerTurn1(s: State)
    requires CornerAt(s, CornerBoard, CornerBoard, None, 0, 0)
    ensures Turn(s, Colour(1)).Next? && CornerAt(Turn(s, Colour(1)).state, [[1, 1], [2, 3]], CornerBoard, None, 1, 1)
  {
    CornerBoardFills(1);
    var b1: Grid := [[1, 1], [2, 3]];
    assert !IsUniform(b1, 2) by {
      assert b1[1][0] != b1[0][0];
    }
    ColourTurn(s, 1);
  }

  /** "u": back to slot 0, which the live board now is. */
  lemma CornerTurn2(s: State)
    requires CornerAt(s, [[1, 1], [2, 3]], CornerBoard, None, 1, 1)
    ensures Turn(s, Undo).Next? && CornerAt(Turn(s, Undo).state, CornerBoard, CornerBoard, Some(0), 0, 2)
  {
    assert !IsUniform(CornerBoard, 2) by {
      assert CornerBoard[0][1] != CornerBoard[0][0];
    }
    UndoTurn(s);
  }

  /** "g": the corner turns green, on the live board and so in slot 0 as well. */
  lemma CornerTurn3(s: State)
    requires CornerAt(s, CornerBoard, CornerBoard, Some(0), 0, 2)
    ensures Turn(s, Colour(2)).Next? && CornerAt(Turn(s, Colour(2)).state, [[2, 1], [2, 3]], [[2, 1], [2, 3]], Some(0), 1, 3)
  {
    CornerBoardFills(2);
    var b2: Grid := [[2, 1], [2, 3]];
    assert !IsUniform(b2, 2) by {
      assert b2[0][1] != b2[0][0];
    }
    ColourTurn(s, 2);
  }

  /** "u": back to slot 0, which holds the green corner. */
  lemma CornerTurn4(s: State)
    requires CornerAt(s, [[2, 1], [2, 3]], [[2, 1], [2, 3]], Some(0), 1, 3)
    ensures Turn(s, Undo).Next? && CornerAt(Turn(s, Undo).state, [[2, 1], [2, 3]], [[2, 1], [2, 3]], Some(0), 0, 4)
  {
    var b2: Grid := [[2, 1], [2, 3]];
    assert !IsUniform(b2, 2) by {
      assert b2[0][1] != b2[0][0];
    }
    UndoTurn(s);
  }

  /** The last two turns, "g" and "u", and the loss at the end of the budget. */
  lemma CornerGameEnds(s: State)
    requires CornerAt(s, CornerBoard, CornerBoard, Some(0), 0, 2)
    ensures var e := Loop(s, [Colour(2), Undo]);
      e.outcome == Lost && e.state.board == [[2, 1], [2, 3]]
  {
    var cmds := [Colour(2), Undo];
    CornerTurn3(s);
    var s3 := Turn(s, cmds[0]).state;
    CornerTurn4(s3);
    var s4 := Turn(s3, cmds[1]).state;
    LoopStep(s, cmds, 0, false, s3);
    LoopStep(s3, cmds, 1, false, s4);
    assert cmds[0..] == cmds;
    LoopStops(s4, cmds[2..]);
  }

  /**
   * On the board [[0, 1], [2, 3]] with four moves, the commands "b", "u", "g", "u"
   * end with the board [[2, 1], [2, 3]] and the game lost: the second undo brings
   * back the repainted slot 0, not the starting board that was saved there.
   */
  lemma UndoAfterUndoKeepsRepaintedBoard()
    ensures var e := Play(Init(2, 4, CornerBoard), [Colour(1), Undo, Colour(2), Undo]);
      e.outcome == Lost && e.state.board == [[2, 1], [2, 3]] && e.state.board != CornerBoard
  {
    var cmds := [Colour(1), Undo, Colour(2), Undo];
    CornerGameStarts(cmds);
    var s0 := SaveBoard(CheckForWin(Init(2, 4, CornerBoard)));
    CornerTurn1(s0);
    var s1 := Turn(s0, cmds[0]).state;
    CornerTurn2(s1);
    var s2 := Turn(s1, cmds[1]).state;
    LoopStep(s0, cmds, 0, false, s1);
    LoopStep(s1, cmds, 1, false, s2);
    assert cmds[0..] == cmds && cmds[2..] == [Colour(2), Undo];
    CornerGameEnds(s2);
    var b2: Grid := [[2, 1], [2, 3]];
    assert b2[0][0] != CornerBoard[0][0];
  }
}
