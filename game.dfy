/**
 * The state of one game of Flood as a value, and one function per step the game
 * takes: saving the board into the history, restoring from it, the win test, a fill,
 * one turn and the whole turn loop. The class in module Engine keeps this state in
 * arrays and fields; each of its methods is proved to act on its state as the
 * function of the same name here acts on the value.
 *
 * The history has exactly max_moves_num slots, and an undo makes the live board BE
 * the slot it restores (the board array and the slot are then one array). Both are
 * modelled as written: `alias` records which slot the live board is, and a save past
 * the last slot ends the game with an IndexError.
 */
module Game {
  import opened FloodFill

  datatype Option<T> = None | Some(value: T)

  // ---------------------------------------------------------------- the player's letters

  /** Number of colours a tile can have (the length of COLORS). */
  const ColourCount: nat := 4

  const ColourLetterToNum: map<char, int> := map['r' := 0, 'b' := 1, 'g' := 2, 'y' := 3]

  const UndoLetter: char := 'u'

  const LegalInput: seq<char> := ['r', 'b', 'g', 'y', 'u']

  /** What one turn asks for: paint the corner's region with a colour, or undo. */
  datatype Command = Colour(colour: int) | Undo

  /** The letter-to-command lookup; letters outside LegalInput are refused (the game asks again). */
  function DecodeLetter(ch: char): (r: Option<Command>)
    ensures r.Some? <==> ch in LegalInput
    ensures r == Some(Undo) <==> ch == UndoLetter
    ensures r.Some? && r.value.Colour? ==>
      ch in ColourLetterToNum && r.value.colour == ColourLetterToNum[ch] && 0 <= r.value.colour < ColourCount
  {
    if ch == UndoLetter then Some(Undo)
    else if ch in ColourLetterToNum then Some(Colour(ColourLetterToNum[ch]))
    else None
  }

  predicate IsPlayable(cmd: Command) {
    cmd.Undo? || 0 <= cmd.colour < ColourCount
  }

  /** The letter a player types for a command. */
  function LetterOf(cmd: Command): (ch: char)
    requires IsPlayable(cmd)
    ensures ch in LegalInput
  {
    match cmd
    case Undo => UndoLetter
    case Colour(c) => "rbgy"[c]
  }

  /** Typing a command's letter gives that command back, and every accepted letter is a command's letter. */
  lemma DecodeLetterOf(cmd: Command, ch: char)
    ensures IsPlayable(cmd) ==> DecodeLetter(LetterOf(cmd)) == Some(cmd)
    ensures DecodeLetter(ch).Some? ==> IsPlayable(DecodeLetter(ch).value) && LetterOf(DecodeLetter(ch).value) == ch
  {
    if IsPlayable(cmd) && cmd.Colour? {
      assert cmd.colour in {0, 1, 2, 3};
    }
  }

  // ---------------------------------------------------------------- the game's state

  datatype State = State(
    size: nat,            // tiles per side
    maxMoves: nat,        // the move budget, also the number of history slots
    board: Grid,          // the values of the live board
    slots: seq<Grid>,     // the values of the history slots
    alias: Option<nat>,   // Some(k): the live board is history slot k itself
    index: nat,           // the history cursor
    moves: nat,           // turns taken so far
    won: bool)

  /** How a game ends when the commands are played. */
  datatype Outcome =
    | Won            // the win test held
    | Lost           // the budget ran out without a win
    | AwaitingInput  // the commands ran out first
    | IndexError     // the corner or a history slot was indexed out of range

  datatype Ending = Ending(state: State, outcome: Outcome)

  datatype TurnResult = Next(state: State) | Crashed(state: State)

  /** Shapes agree, the history has its fixed capacity, and an aliased slot is the live board. */
  predicate Consistent(s: State) {
    && IsSquare(s.board, s.size)
    && |s.slots| == s.maxMoves
    && (forall k :: 0 <= k < |s.slots| ==> IsSquare(s.slots[k], s.size))
    && (s.alias.Some? ==> s.alias.value < |s.slots| && s.slots[s.alias.value] == s.board)
  }

  /** Between turns: the board is saved at the cursor, and the cursor trails the move count. */
  predicate Resting(s: State) {
    && Consistent(s)
    && s.size > 0
    && s.index < |s.slots|
    && s.slots[s.index] == s.board
    && s.index <= s.moves <= s.maxMoves
  }

  function Zeros(n: nat): (g: Grid)
    ensures IsSquare(g, n)
  {
    seq(n, _ => seq(n, _ => 0))
  }

  /** A new game: the history holds max_moves_num zero boards, nothing is played yet. */
  function Init(size: nat, maxMoves: nat, board: Grid): (s: State)
    requires IsSquare(board, size)
    ensures Consistent(s)
  {
    State(size, maxMoves, board, seq(maxMoves, _ => Zeros(size)), None, 0, 0, false)
  }

  /** Copy the live board's values into the slot at the cursor. */
  function SaveBoard(s: State): (r: State)
    requires Consistent(s) && s.index < |s.slots|
    ensures Consistent(r) && r.(slots := s.slots) == s && |r.slots| == |s.slots|
    ensures r.slots[s.index] == s.board && forall k :: 0 <= k < |s.slots| && k != s.index ==> r.slots[k] == s.slots[k]
  {
    s.(slots := s.slots[s.index := s.board])
  }

  /** Step the cursor back and make the live board be that slot; at cursor 0 nothing changes. */
  function RestorePrevBoard(s: State): (r: State)
    requires Consistent(s) && s.index <= |s.slots|
    ensures Consistent(r) && r.slots == s.slots && r.moves == s.moves && r.won == s.won
    ensures r.size == s.size && r.maxMoves == s.maxMoves
    ensures s.index == 0 ==> r == s
    ensures s.index > 0 ==> r.index == s.index - 1 && r.board == s.slots[r.index] && r.alias == Some(r.index)
  {
    if s.index == 0 then s
    else s.(index := s.index - 1, board := s.slots[s.index - 1], alias := Some(s.index - 1))
  }

  /** The win test: once every tile has the corner's colour the game is won, and it stays won. */
  function CheckForWin(s: State): (r: State)
    requires Consistent(s) && s.size > 0
    ensures Consistent(r) && r.(won := s.won) == s
    ensures r.won <==> s.won || IsUniform(s.board, s.size)
  {
    if IsUniform(s.board, s.size) then s.(won := true) else s
  }

  /** The fill; when the live board is a history slot, that slot is repainted with it. */
  ghost function SpreadColour(s: State, colour: int): (r: State)
    requires Consistent(s)
    ensures Consistent(r) && r.(board := s.board, slots := s.slots) == s && |r.slots| == |s.slots|
    ensures forall k :: 0 <= k < |s.slots| && s.alias != Some(k) ==> r.slots[k] == s.slots[k]
  {
    var b := Flooded(s.board, s.size, colour);
    s.(board := b, slots := if s.alias.Some? then s.slots[s.alias.value := b] else s.slots)
  }

  /**
   * A colour move: the fill, then the cursor advances and the board is saved there;
   * the save crashes when the cursor has passed the last slot.
   */
  ghost function ColourMove(s: State, colour: int): (r: TurnResult)
    requires Consistent(s) && s.index < s.moves && s.size > 0
    ensures Consistent(r.state) && r.state.moves == s.moves && r.state.index == s.index + 1
    ensures r.Next? <==> s.index + 1 < |s.slots|
  {
    var s1 := SpreadColour(s, colour);
    var s2 := s1.(index := s1.index + 1);
    if s2.index < |s2.slots| then Next(SaveBoard(s2)) else Crashed(s2)
  }

  /** A command once its turn is counted: undo or a colour move, then the win test unless the save crashed. */
  ghost function Step(s: State, cmd: Command): (r: TurnResult)
    requires Resting(s) && s.index < s.moves
    ensures r.state.moves == s.moves
    ensures r.Next? ==> Resting(r.state) && r.state.maxMoves == s.maxMoves
  {
    match cmd
    case Undo => Next(CheckForWin(RestorePrevBoard(s)))
    case Colour(c) =>
      match ColourMove(s, c)
      case Crashed(t) => Crashed(t)
      case Next(t) => Next(CheckForWin(t))
  }

  /** One pass of the turn loop: count the move, then carry out the command. */
  ghost function Turn(s: State, cmd: Command): (r: TurnResult)
    requires Resting(s) && s.moves < s.maxMoves
    ensures r.state.moves == s.moves + 1
    ensures r.Next? ==> Resting(r.state) && r.state.maxMoves == s.maxMoves
  {
    Step(s.(moves := s.moves + 1), cmd)
  }

  lemma TurnIsCountedStep(s: State, s1: State, cmd: Command)
    requires Resting(s) && s.moves < s.maxMoves && s1 == s.(moves := s.moves + 1)
    ensures Resting(s1) && s1.index < s1.moves && Turn(s, cmd) == Step(s1, cmd)
  {
  }

  /** The turn loop: it runs while the budget lasts and the game is not won. */
  ghost function Loop(s: State, cmds: seq<Command>): (e: Ending)
    requires Resting(s)
    ensures s.moves <= e.state.moves
    decreases |cmds|
  {
    if s.won then Ending(s, Won)
    else if s.moves >= s.maxMoves then Ending(s, Lost)
    else if cmds == [] then Ending(s, AwaitingInput)
    else
      match Turn(s, cmds[0])
      case Crashed(t) => Ending(t, IndexError)
      case Next(t) => Loop(t, cmds[1..])
  }

  /** The loop takes one turn when the game is neither won nor out of moves and a command is left. */
  lemma LoopStep(s: State, cmds: seq<Command>, i: nat, crashed: bool, t: State)
    requires Resting(s) && !s.won && s.moves < s.maxMoves && i < |cmds|
    requires crashed == Turn(s, cmds[i]).Crashed? && t == Turn(s, cmds[i]).state
    ensures crashed ==> Loop(s, cmds[i..]) == Ending(t, IndexError)
    ensures !crashed ==> Resting(t) && Loop(s, cmds[i..]) == Loop(t, cmds[i + 1..])
  {
    assert cmds[i..][0] == cmds[i] && cmds[i..][1..] == cmds[i + 1..];
  }

  /** The loop stops on a won game, at the move budget, or when the commands run out. */
  lemma LoopStops(s: State, cmds: seq<Command>)
    requires Resting(s) && (s.won || s.moves >= s.maxMoves || cmds == [])
    ensures Loop(s, cmds) == Ending(s, if s.won then Won else if s.moves >= s.maxMoves then Lost else AwaitingInput)
  {
  }

  /** A whole game: the win test on the starting board, the first save, then the loop. */
  ghost function Play(s: State, cmds: seq<Command>): (e: Ending)
    requires Consistent(s) && s.index <= s.moves <= s.maxMoves
    ensures s.moves <= e.state.moves
  {
    if s.size == 0 then Ending(s, IndexError)
    else
      var s1 := CheckForWin(s);
      if s1.index >= |s1.slots| then Ending(s1, IndexError)
      else Loop(SaveBoard(s1), cmds)
  }

  /** The start of a game, up to its first save. */
  lemma PlayStarts(s: State, s1: State, cmds: seq<Command>)
    requires Consistent(s) && s.index <= s.moves <= s.maxMoves && s.size > 0 && s1 == CheckForWin(s)
    ensures s1.index >= |s1.slots| ==> Play(s, cmds) == Ending(s1, IndexError)
    ensures s1.index < |s1.slots| ==> Resting(SaveBoard(s1)) && Play(s, cmds) == Loop(SaveBoard(s1), cmds)
  {
  }
}
