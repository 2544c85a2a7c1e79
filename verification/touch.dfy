/** The touch rule shared by `GameBoardV2.tsx` and `GameBoard.tsx`: what a
    touch on a square asks for, given the board, the selection, whose turn
    it is and the current valid-move keys. */
module TouchRule {
  import opened Outcomes
  import opened JsText
  import opened Board
  import opened ValidMoves
  import GameMachine

  /** At most one request per touch. */
  datatype Touch = NoEvent | SelectSquare(square: Square) | MoveToSquare(square: Square)

  /** `handleTouch`. With nothing selected, a piece of the side to move is
      selected and anything else is ignored. With a selection, a piece of
      the selected piece's colour becomes the new selection; otherwise a
      different square whose key is among the valid moves is a move. */
  function Decide(b: Grid, active: Option<Square>, turn: bool, valid: set<string>, sq: Square): (t: Touch)
    ensures t.SelectSquare? || t.MoveToSquare? ==> t.square == sq
    ensures t.SelectSquare? <==>
      && At(b, sq) != Empty
      && (if active.None? then IsPieceWhite(At(b, sq)) == turn
          else IsPieceWhite(At(b, sq)) == IsPieceWhite(At(b, active.value)))
    ensures t.MoveToSquare? <==>
      && active.Some? && sq != active.value
      && (At(b, sq) == Empty || IsPieceWhite(At(b, sq)) != IsPieceWhite(At(b, active.value)))
      && Key(sq) in valid
  {
    var cell := At(b, sq);
    var isActive := active == Some(sq);
    if active.None? && cell != Empty && IsPieceWhite(cell) != turn then NoEvent
    else if (active.None? && cell != Empty)
         || (active.Some? && IsPieceWhite(cell) == IsPieceWhite(At(b, active.value)) && cell != Empty) then
      SelectSquare(sq)
    else if active.Some? && !isActive && |valid| != 0 && Key(sq) in valid then MoveToSquare(sq)
    else NoEvent
  }

  /** The machine event a request becomes. */
  function ToEvent(t: Touch): (e: Option<GameMachine.Event>)
    ensures e.None? <==> t.NoEvent?
  {
    match t
    case NoEvent => None
    case SelectSquare(sq) => Some(GameMachine.Select(sq))
    case MoveToSquare(sq) => Some(GameMachine.MoveTo(sq))
  }

  /** Driven by the touch rule, the machine never gets stuck: from `idle`
      every event the rule sends brings it back to `idle`, because a move
      is only sent while something is selected. */
  lemma TouchNeverStalls(m: GameMachine.Machine, sq: Square, fen: string, initial: Grid)
    requires GameMachine.Inv(m, initial) && m.state == GameMachine.Idle
    ensures var b: Grid := m.ctx.positions;
      var t := Decide(b, m.ctx.active, m.ctx.isWhiteTurn, m.ctx.validMoves, sq);
      t.NoEvent? || GameMachine.Dispatch(m, ToEvent(t).value, fen).state == GameMachine.Idle
  {
    var b: Grid := m.ctx.positions;
    var t := Decide(b, m.ctx.active, m.ctx.isWhiteTurn, m.ctx.validMoves, sq);
    if t.SelectSquare? {
      GameMachine.SelectDispatch(m, sq, fen, initial);
    } else if t.MoveToSquare? {
      GameMachine.MoveDispatch(m, sq, fen, initial);
    }
  }

  /** In `idle`, a move the rule sends is one `findValidMoves` produced for
      the current board and selection. */
  lemma TouchMovesAreValid(m: GameMachine.Machine, sq: Square, initial: Grid)
    requires GameMachine.Inv(m, initial) && m.state == GameMachine.Idle
    ensures var b: Grid := m.ctx.positions;
      Decide(b, m.ctx.active, m.ctx.isWhiteTurn, m.ctx.validMoves, sq).MoveToSquare? ==>
        && m.ctx.active.Some?
        && Key(sq) in FindValidMoves(b, m.ctx.active.value, m.ctx.prevMove,
                                     m.ctx.whiteKing, m.ctx.blackKing).isValidAndSafe
  {
  }
}
