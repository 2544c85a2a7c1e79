/** `GameBoard.tsx`, the earlier board component that keeps its own state
    instead of a machine: its copy of `boardBuilder`, written as the loops
    it is, and its touch handler. */
module LegacyBoard {
  import opened Outcomes
  import opened JsText
  import opened Board
  import opened Placement
  import opened StartPosition
  import opened ValidMoves
  import opened TouchRule

  // ---------------------------------------------------------------------
  // Reading a row one character at a time.

  /** Reading `a` and then `b` is reading `b` from where `a` left off. */
  lemma {:induction false} PlaceRowAppend(a: string, b: string, file: nat, cells: seq<char>)
    requires |cells| == 8
    ensures PlaceRow(a + b, file, cells) == PlaceRow(b, file + Width(a), PlaceRow(a, file, cells))
    decreases |a|
  {
    if |a| > 0 {
      assert (a + b)[1..] == a[1..] + b;
      assert (a + b)[0] == a[0];
      var next := if IsNumeric(a[0]) then cells else if file < 8 then cells[file := a[0]] else cells;
      PlaceRowAppend(a[1..], b, file + Advance(a[0]), next);
    } else {
      assert a + b == b;
    }
  }

  lemma {:induction false} WidthAppend(a: string, c: char)
    ensures Width(a + [c]) == Width(a) + Advance(c)
    decreases |a|
  {
    if |a| == 0 {
      assert a + [c] == [c];
    } else {
      assert (a + [c])[1..] == a[1..] + [c];
      WidthAppend(a[1..], c);
    }
  }

  /** The last `ch` of a row with one more character. */
  lemma {:induction false} LastFileAppend(a: string, c: char, ch: char)
    requires !IsNumeric(ch)
    ensures LastFile(a + [c], ch) == if c == ch then Some(Width(a)) else LastFile(a, ch)
    decreases |a|
  {
    if |a| == 0 {
      assert a + [c] == [c];
    } else {
      var ac := a + [c];
      assert ac[0] == a[0] && ac[1..] == a[1..] + [c];
      LastFileAppend(a[1..], c, ch);
      var tail := LastFile(a[1..] + [c], ch);
      assert LastFile(ac, ch) == match tail
        case Some(f) => Some(Advance(a[0]) + f)
        case None => if a[0] == ch then Some(0) else None;
      if c == ch {
        assert Width(a) == Advance(a[0]) + Width(a[1..]);
      } else {
        assert tail == LastFile(a[1..], ch);
        assert LastFile(a, ch) == match LastFile(a[1..], ch)
          case Some(f) => Some(Advance(a[0]) + f)
          case None => if a[0] == ch then Some(0) else None;
      }
    }
  }

  /** The square of the last `ch` of a row hit, or of an earlier one. */
  function Latest(hit: Option<nat>, r: nat, earlier: Option<(nat, nat)>): Option<(nat, nat)> {
    match hit
    case Some(f) => Some((r, f))
    case None => earlier
  }

  /** The last `ch` of a placement with one more row. */
  lemma {:induction false} LastSquareAppend(rows: seq<string>, row: string, ch: char)
    requires !IsNumeric(ch)
    ensures LastSquare(rows + [row], ch) == Latest(LastFile(row, ch), |rows|, LastSquare(rows, ch))
    decreases |rows|
  {
    if |rows| == 0 {
      assert rows + [row] == [row];
      assert [row][1..] == [];
    } else {
      assert (rows + [row])[1..] == rows[1..] + [row];
      LastSquareAppend(rows[1..], row, ch);
    }
  }

  /** The king square `boardBuilder` returns, from the cursor it tracked. */
  function AsSquare(found: Option<(nat, nat)>): Option<Square> {
    match found
    case Some(sq) => if sq.0 < 8 && sq.1 < 8 then Some(Square(sq.0, sq.1)) else None
    case None => None
  }

  /** The inner loop of `boardBuilder` over one row: a digit advances the
      file by its value, anything else is written at the file (dropped past
      the eighth, see `PlaceRow`) and steps it by one; the files of the last
      'K' and 'k' written are remembered. */
  method ReadRow(row: string) returns (cells: seq<char>, file: nat, whiteHit: Option<nat>, blackHit: Option<nat>)
    ensures cells == PlaceRow(row, 0, BlankRow) && file == Width(row)
    ensures whiteHit == LastFile(row, 'K') && blackHit == LastFile(row, 'k')
  {
    cells := BlankRow;
    file := 0;
    whiteHit := None;
    blackHit := None;
    var k := 0;
    while k < |row|
      invariant 0 <= k <= |row|
      invariant file == Width(row[..k])
      invariant cells == PlaceRow(row[..k], 0, BlankRow)
      invariant whiteHit == LastFile(row[..k], 'K') && blackHit == LastFile(row[..k], 'k')
    {
      var c := row[k];
      assert row[..k + 1] == row[..k] + [c];
      PlaceRowAppend(row[..k], [c], 0, BlankRow);
      WidthAppend(row[..k], c);
      LastFileAppend(row[..k], c, 'K');
      LastFileAppend(row[..k], c, 'k');
      match NumberOfChar(c) {
        case Some(v) =>
          file := file + v;
        case None =>
          if file < 8 {
            cells := cells[file := c];
          }
          if c == 'k' {
            blackHit := Some(file);
          }
          if c == 'K' {
            whiteHit := Some(file);
          }
          file := file + 1;
      }
      k := k + 1;
    }
    assert row[..k] == row;
  }

  /** What the outer loop has built once all eight rows were read. */
  lemma BuiltBoard(rows: seq<string>, board: Grid, whiteKing: Option<(nat, nat)>, blackKing: Option<(nat, nat)>)
    requires |rows| == 8 && RowsRead(rows, board, 8)
    requires whiteKing == LastSquare(rows, 'K') && blackKing == LastSquare(rows, 'k')
    ensures FirstBadRow(rows, 0) == None
    ensures board == FillRows(rows)
    ensures AsSquare(whiteKing) == KingSquare(rows, 'K') && AsSquare(blackKing) == KingSquare(rows, 'k')
  {
  }

  /** A row whose file does not end at eight, after rows that did, is the
      first bad row. */
  lemma {:induction false} FirstBadRowAt(rows: seq<string>, board: Grid, from: nat, rank: nat)
    requires from <= rank < |rows| && rank < 8 && Width(rows[rank]) != 8
    requires RowsRead(rows, board, rank)
    ensures FirstBadRow(rows, from) == Some(rank)
    decreases rank - from
  {
    if from < rank {
      assert Width(rows[from]) == 8;
      FirstBadRowAt(rows, board, from + 1, rank);
    }
  }

  /** The king squares after one more row. */
  lemma KingsStep(rows: seq<string>, rank: nat, hit: Option<nat>, found: Option<(nat, nat)>, ch: char)
    requires rank < |rows| && !IsNumeric(ch)
    requires hit == LastFile(rows[rank], ch) && found == LastSquare(rows[..rank], ch)
    ensures Latest(hit, rank, found) == LastSquare(rows[..rank + 1], ch)
  {
    assert rows[..rank + 1] == rows[..rank] + [rows[rank]];
    LastSquareAppend(rows[..rank], rows[rank], ch);
  }

  /** Rows `0 .. rank - 1` are full and read into the board. */
  predicate RowsRead(rows: seq<string>, board: Grid, rank: nat)
    requires rank <= |rows| && rank <= 8
  {
    forall i :: 0 <= i < rank ==> Width(rows[i]) == 8 && board[i] == PlaceRow(rows[i], 0, BlankRow)
  }

  /** Storing one more full row. */
  lemma RowsReadStep(rows: seq<string>, board: Grid, rank: nat, cells: seq<char>)
    requires rank < |rows| && rank < 8 && RowsRead(rows, board, rank)
    requires Width(rows[rank]) == 8 && cells == PlaceRow(rows[rank], 0, BlankRow)
    ensures IsGrid(board[rank := cells])
    ensures RowsRead(rows, board[rank := cells], rank + 1)
  {
  }

  /** What `boardBuilder` returns for eight rows. */
  function FromRows(rows: seq<string>): Result<Layout, FenError>
    requires |rows| == 8
  {
    match FirstBadRow(rows, 0)
    case Some(i) => Failure(WrongColumnCount(i + 1))
    case None => Success(Layout(FillRows(rows), KingSquare(rows, 'K'), KingSquare(rows, 'k')))
  }

  /** The outer loop of `boardBuilder` over eight rows, each read by
      `ReadRow`, remembering the last 'K' and 'k'; it throws at the first
      row whose file does not end at eight. */
  method ReadRows(rows: seq<string>) returns (result: Result<Layout, FenError>)
    requires |rows| == 8
    ensures result == FromRows(rows)
  {
    var board: Grid := BlankGrid;
    var whiteKing: Option<(nat, nat)> := None;
    var blackKing: Option<(nat, nat)> := None;
    var rank := 0;
    while rank < 8
      invariant 0 <= rank <= 8
      invariant RowsRead(rows, board, rank)
      invariant whiteKing == LastSquare(rows[..rank], 'K') && blackKing == LastSquare(rows[..rank], 'k')
    {
      var cells, file, whiteHit, blackHit := ReadRow(rows[rank]);
      if file != 8 {
        FirstBadRowAt(rows, board, 0, rank);
        return Failure(WrongColumnCount(rank + 1));
      }
      KingsStep(rows, rank, whiteHit, whiteKing, 'K');
      KingsStep(rows, rank, blackHit, blackKing, 'k');
      whiteKing := Latest(whiteHit, rank, whiteKing);
      blackKing := Latest(blackHit, rank, blackKing);
      RowsReadStep(rows, board, rank, cells);
      board := board[rank := cells];
      rank := rank + 1;
    }
    assert rows[..8] == rows;
    BuiltBoard(rows, board, whiteKing, blackKing);
    return Success(Layout(board, AsSquare(whiteKing), AsSquare(blackKing)));
  }

  /** `boardBuilder` of `GameBoard.tsx` (and, line for line, of
      `gameMachine.ts`): split the placement field into rows, throw unless
      there are eight, then read them. It computes exactly the reader of
      the placement module. */
  method BuildBoard(fen: string) returns (result: Result<Layout, FenError>)
    ensures result == BoardBuilder(fen)
  {
    var rows := Split(Split(fen, ' ')[0], '/');
    if |rows| != 8 {
      return Failure(WrongRowCount);
    }
    result := ReadRows(rows);
  }

  // ---------------------------------------------------------------------
  // The component's state and its touch handler.

  /** The component's state: its own board, the selection, the last move,
      the valid-move keys of the selection, and the `turn` prop its parent
      flips through `changeTurn`. */
  datatype BoardState = BoardState(positions: Grid, active: Option<Square>, prevMove: Option<Move>,
                                   isValidMove: set<string>, turn: bool)

  /** `handleTouch` of `GameBoard.tsx`, with the effect that follows a new
      selection. A selection recomputes the valid moves with `whiteKing`
      and `blackKing`, which the component reads from `boardBuilder` of the
      fixed start string on every render and so never follow a king that
      moved. A move copies the board, moves the piece on the copy, records
      the move, clears the selection and its moves and flips the turn. */
  function Touch(s: BoardState, sq: Square, whiteKing: Option<Square>, blackKing: Option<Square>): (r: BoardState)
    ensures Decide(s.positions, s.active, s.turn, s.isValidMove, sq).NoEvent? ==> r == s
    ensures Decide(s.positions, s.active, s.turn, s.isValidMove, sq).SelectSquare? ==>
      && r.active == Some(sq)
      && r.isValidMove == FindValidMoves(s.positions, sq, s.prevMove, whiteKing, blackKing).isValidAndSafe
      && r.(active := s.active, isValidMove := s.isValidMove) == s
    ensures Decide(s.positions, s.active, s.turn, s.isValidMove, sq).MoveToSquare? ==>
      && s.active.Some?
      && r == BoardState(Relocate(s.positions, s.active.value, sq), None, Some(Move(s.active.value, sq)), {}, !s.turn)
  {
    match Decide(s.positions, s.active, s.turn, s.isValidMove, sq)
    case NoEvent => s
    case SelectSquare(_) =>
      s.(active := Some(sq), isValidMove := FindValidMoves(s.positions, sq, s.prevMove, whiteKing, blackKing).isValidAndSafe)
    case MoveToSquare(_) =>
      var from := s.active.value;
      BoardState(Relocate(s.positions, from, sq), None, Some(Move(from, sq)), {}, !s.turn)
  }

  /** The valid moves belong to the selection: none without one, and
      otherwise those `findValidMoves` gives for the current board with the
      given king squares. */
  predicate Consistent(s: BoardState, whiteKing: Option<Square>, blackKing: Option<Square>) {
    && (s.active.None? ==> s.isValidMove == {})
    && (s.active.Some? ==>
          s.isValidMove == FindValidMoves(s.positions, s.active.value, s.prevMove, whiteKing, blackKing).isValidAndSafe)
  }

  /** The component's state when first rendered: the board `boardBuilder`
      makes of the fixed start string, nothing selected, no valid moves,
      and the side to move as the parent's `turn` prop says. */
  function Initial(turn: bool): (s: BoardState)
    ensures BoardBuilder(StartPlacement).Success? && s.positions == BoardBuilder(StartPlacement).value.positions
    ensures s.active.None? && s.prevMove.None? && s.turn == turn
    ensures forall whiteKing, blackKing :: Consistent(s, whiteKing, blackKing)
  {
    StartLayout(StartPlacement);
    BoardState(StartGrid, None, None, {}, turn)
  }

  /** Every touch keeps the valid moves consistent with the selection, and
      a touch that moves a piece takes exactly the piece it lands on off the
      board. */
  lemma TouchKeepsConsistent(s: BoardState, sq: Square, whiteKing: Option<Square>, blackKing: Option<Square>)
    requires Consistent(s, whiteKing, blackKing)
    ensures Consistent(Touch(s, sq, whiteKing, blackKing), whiteKing, blackKing)
    ensures !Decide(s.positions, s.active, s.turn, s.isValidMove, sq).MoveToSquare? ==>
      Touch(s, sq, whiteKing, blackKing).positions == s.positions
    ensures Decide(s.positions, s.active, s.turn, s.isValidMove, sq).MoveToSquare? ==>
      forall p :: p != Empty ==>
        PieceCount(Touch(s, sq, whiteKing, blackKing).positions, p) + (if At(s.positions, sq) == p then 1 else 0)
          == PieceCount(s.positions, p)
  {
    var t := Decide(s.positions, s.active, s.turn, s.isValidMove, sq);
    if t.MoveToSquare? {
      forall p | p != Empty
        ensures PieceCount(Relocate(s.positions, s.active.value, sq), p) + (if At(s.positions, sq) == p then 1 else 0)
             == PieceCount(s.positions, p)
      {
        PieceCountRelocate(s.positions, s.active.value, sq, p);
      }
    }
  }

  /** The king squares the component passes to `findValidMoves`: those of
      the fixed start string, whatever has moved since. */
  lemma ComponentKings(placement: string)
    requires placement == StartPlacement
    ensures BoardBuilder(placement).Success?
    ensures BoardBuilder(placement).value.whiteKing == Some(Square(7, 4))
    ensures BoardBuilder(placement).value.blackKing == Some(Square(0, 4))
    ensures BoardBuilder(placement).value.positions == StartGrid
  {
    StartLayout(placement);
  }
}
