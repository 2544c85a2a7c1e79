/** The xstate game machine of `gameMachine.ts`, with the asynchronous
    plumbing collapsed into plain calls. `Send` is the machine's reaction to
    an outside event (only `idle` has any); `Settle` runs the service of the
    state just entered and takes its `onDone` transition, or leaves the
    machine where it is when the service throws (no state has an `onError`);
    `Dispatch` is one outside event followed by its service. */
module GameMachine {
  import opened Outcomes
  import opened JsText
  import opened Board
  import opened Placement
  import opened Attacks
  import opened ValidMoves
  import opened StartPosition

  datatype StateName = Initialize | Idle | CheckValidMoves | MakeMove | CheckMate | Resigned

  /** The events the user interface sends. */
  datatype Event = Select(target: Square) | MoveTo(target: Square) | Resign

  /** `GameMachineContext`. `positions` is `[]` until `initialize` is done,
      hence a plain nested sequence; every `[]`-or-pair array is an
      `Option`. */
  datatype Context = Context(
    positions: seq<seq<char>>,
    castlingRights: set<char>,
    capturedBlacks: map<char, nat>,
    capturedWhites: map<char, nat>,
    validMoves: set<string>,
    active: Option<Square>,
    whiteKing: Option<Square>,
    blackKing: Option<Square>,
    prevMove: Option<Move>,
    isWhiteTurn: bool,
    kingCheck: bool,
    enPassant: seq<int>,
    file: int,
    rank: int)

  const DefaultContext: Context :=
    Context([], {}, map[], map[], {}, None, None, None, None, true, false, [], -1, -1)

  datatype Machine = Machine(state: StateName, ctx: Context)

  /** The machine as created: `initialize` with the default context. */
  const Created: Machine := Machine(Initialize, DefaultContext)

  // ---------------------------------------------------------------------
  // Services.

  /** Why `initialize` rejects: `boardBuilder` threw, a FEN field it reads
      is missing (reading a property of `undefined`), or the en-passant
      field is not `-` and does not decode to two numbers. */
  datatype InitError = BadPlacement(cause: FenError) | MissingField | UnsupportedEnPassant

  datatype InitData = InitData(positions: Grid, whiteKing: Option<Square>, blackKing: Option<Square>,
                               isWhiteTurn: bool, castlingRights: set<char>, enPassant: seq<int>)

  /** The en-passant field when it is not `-`: the file letter's code minus
      97, and seven minus the rank digit. */
  function EnPassantTarget(field: string): Option<seq<int>> {
    if |field| < 2 then None
    else match ParseInt([field[1]])
      case Some(rank) => Some([field[0] as int - 97, 7 - rank])
      case None => None
  }

  /** The `initialize` service, reading `fen` (the app passes
      `StartFen`): the placement through `boardBuilder`, the side to move,
      the castling letters as a set, and the en-passant square. */
  function InitializeService(fen: string): (r: Result<InitData, InitError>)
    ensures r.Success? ==> var fields := Split(fen, ' ');
      && |fields| >= 4
      && BoardBuilder(fields[0]).Success?
      && r.value.positions == BoardBuilder(fields[0]).value.positions
      && (r.value.isWhiteTurn <==> fields[1] == "w")
      && (forall c :: c in r.value.castlingRights <==> c in fields[2])
      && (fields[3] == "-" ==> r.value.enPassant == [])
    ensures r.Failure? && r.error.BadPlacement? ==> BoardBuilder(Split(fen, ' ')[0]) == Failure(r.error.cause)
  {
    var fields := Split(fen, ' ');
    match BoardBuilder(fields[0])
    case Failure(e) => Failure(BadPlacement(e))
    case Success(layout) =>
      var isWhiteTurn := |fields| > 1 && fields[1] == "w";
      if |fields| <= 3 then Failure(MissingField)
      else
        var rights := set c | c in fields[2];
        var enPassant := if fields[3] == "-" then Some([]) else EnPassantTarget(fields[3]);
        if enPassant.None? then Failure(UnsupportedEnPassant)
        else Success(InitData(layout.positions, layout.whiteKing, layout.blackKing, isWhiteTurn, rights, enPassant.value))
  }

  /** The `checkValidMoves` service: `findValidMoves` on the context. It
      throws when nothing is selected or the board is not built yet. */
  function CheckValidMovesService(c: Context): (r: Option<ValidMovesResult>)
    ensures r.Some? <==> IsGrid(c.positions) && c.active.Some?
    ensures r.Some? ==> r.value == FindValidMoves(c.positions, c.active.value, c.prevMove, c.whiteKing, c.blackKing)
  {
    if IsGrid(c.positions) && c.active.Some? then
      Some(FindValidMoves(c.positions, c.active.value, c.prevMove, c.whiteKing, c.blackKing))
    else None
  }

  datatype MoveData = MoveData(positions: Grid, prevMove: Move, kingCheck: bool, isWhiteTurn: bool,
                               capturedBlacks: map<char, nat>, capturedWhites: map<char, nat>,
                               validMoves: set<string>, active: Option<Square>)

  /** The tallies as `makeMove` leaves them, even when it throws
      afterwards: the maps are updated in place. */
  datatype Tallies = Tallies(capturedBlacks: map<char, nat>, capturedWhites: map<char, nat>)

  /** `map.get(p) ?? 0`. */
  function Tally(m: map<char, nat>, p: char): nat {
    if p in m then m[p] else 0
  }

  /** One more `p` in a tally map. */
  function Bump(m: map<char, nat>, p: char): (r: map<char, nat>)
    ensures Tally(r, p) == Tally(m, p) + 1
    ensures forall q :: q != p ==> Tally(r, q) == Tally(m, q)
  {
    m[p := Tally(m, p) + 1]
  }

  /** The first step of `makeMove`: a captured piece is counted under its
      colour. */
  function CountCapture(c: Context, target: char): (t: Tallies)
    ensures forall p ::
      && Tally(t.capturedWhites, p) == Tally(c.capturedWhites, p) + (if p == target && p != Empty && IsPieceWhite(p) then 1 else 0)
      && Tally(t.capturedBlacks, p) == Tally(c.capturedBlacks, p) + (if p == target && p != Empty && !IsPieceWhite(p) then 1 else 0)
  {
    if target == Empty then Tallies(c.capturedBlacks, c.capturedWhites)
    else if IsPieceWhite(target) then Tallies(c.capturedBlacks, Bump(c.capturedWhites, target))
    else Tallies(Bump(c.capturedBlacks, target), c.capturedWhites)
  }

  /** The `makeMove` service: count the captured piece, move the selected
      piece onto `(file, rank)`, record the move, test the other side's
      cached king with the moved piece's colour, flip the turn and clear the
      selection. Because `isKingCheck` takes its colour from the square it
      is given, which holds the moved piece, the test looks around the
      other side's king for pieces of the other side's own colour, not for
      the mover's; with no cached king it is false. It throws, before anything changes, when the board is not
      built or `(file, rank)` is off it; and, after the tallies were
      updated, when nothing is selected. */
  function MakeMoveService(c: Context): (r: Result<MoveData, Tallies>)
    ensures !IsGrid(c.positions) || !InBounds(c.file, c.rank) ==> r == Failure(Tallies(c.capturedBlacks, c.capturedWhites))
    ensures r.Success? <==> IsGrid(c.positions) && InBounds(c.file, c.rank) && c.active.Some?
    ensures r.Success? ==>
      var to := Square(c.file, c.rank);
      && r.value.positions == Relocate(c.positions, c.active.value, to)
      && r.value.prevMove == Move(c.active.value, to)
      && r.value.isWhiteTurn == !c.isWhiteTurn
      && r.value.validMoves == {} && r.value.active == None
      && Tallies(r.value.capturedBlacks, r.value.capturedWhites) == CountCapture(c, At(c.positions, to))
    ensures r.Success? ==>
      var to := Square(c.file, c.rank);
      var king := if IsPieceWhite(At(r.value.positions, to)) then c.blackKing else c.whiteKing;
      (r.value.kingCheck <==> king.Some? && IsKingCheck(r.value.positions, king.value.row, king.value.col, to))
  {
    if !IsGrid(c.positions) || !InBounds(c.file, c.rank) then Failure(Tallies(c.capturedBlacks, c.capturedWhites))
    else
      var b: Grid := c.positions;
      var to := Square(c.file, c.rank);
      var tallies := CountCapture(c, At(b, to));
      match c.active
      case None => Failure(tallies)
      case Some(from) =>
        var after := Relocate(b, from, to);
        var king := if IsPieceWhite(At(after, to)) then c.blackKing else c.whiteKing;
        var kingCheck := match king
          case None => false
          case Some(k) => IsKingCheck(after, k.row, k.col, to);
        Success(MoveData(after, Move(from, to), kingCheck, !c.isWhiteTurn,
                         tallies.capturedBlacks, tallies.capturedWhites, {}, None))
  }

  /** The check `makeMove` reports, located: the moved piece's colour
      `w` picks the other side's cached king, and the test then looks
      there for a pawn, knight or slider of the colour opposite to `w`,
      that is, of the king's own side. */
  lemma MoveKingCheckIff(c: Context)
    requires MakeMoveService(c).Success?
    ensures var d := MakeMoveService(c).value;
      var to := Square(c.file, c.rank);
      var w := IsPieceWhite(At(d.positions, to));
      var king := if w then c.blackKing else c.whiteKing;
      (d.kingCheck <==>
         && king.Some?
         && (|| PawnThreat(d.positions, king.value.row, king.value.col, w)
             || KnightThreat(d.positions, king.value.row, king.value.col, w)
             || RayStrikes(d.positions, to, king.value.row, king.value.col, king.value.row, king.value.col, w)))
  {
    var d := MakeMoveService(c).value;
    var to := Square(c.file, c.rank);
    var king := if IsPieceWhite(At(d.positions, to)) then c.blackKing else c.whiteKing;
    if king.Some? {
      KingCheckIff(d.positions, king.value.row, king.value.col, to);
    }
  }

  // ---------------------------------------------------------------------
  // The `setContext` reducer.

  /** What `setContext` is called with: a service's result or an outside
      event. */
  datatype Update =
    | InitDone(init: InitData)
    | Selected(square: Square)
    | ValidMovesDone(moves: ValidMovesResult)
    | MoveChosen(square: Square)
    | MoveDone(data: MoveData)

  /** `setContext`: each kind of update writes its own fields and no
      others. */
  function SetContext(c: Context, u: Update): (r: Context)
    ensures u.InitDone? ==>
      && r.positions == u.init.positions && r.whiteKing == u.init.whiteKing && r.blackKing == u.init.blackKing
      && r.isWhiteTurn == u.init.isWhiteTurn && r.castlingRights == u.init.castlingRights
      && r.enPassant == u.init.enPassant
      && r.(positions := c.positions, whiteKing := c.whiteKing, blackKing := c.blackKing, isWhiteTurn := c.isWhiteTurn,
            castlingRights := c.castlingRights, enPassant := c.enPassant) == c
    ensures u.Selected? ==> r.active == Some(u.square) && r.(active := c.active) == c
    ensures u.ValidMovesDone? ==>
      && r.validMoves == u.moves.isValidAndSafe && r.enPassant == u.moves.enPassant
      && r.(validMoves := c.validMoves, enPassant := c.enPassant) == c
    ensures u.MoveChosen? ==>
      && r.file == u.square.row && r.rank == u.square.col
      && r.(file := c.file, rank := c.rank) == c
    ensures u.MoveDone? ==>
      && r.positions == u.data.positions && r.prevMove == Some(u.data.prevMove)
      && r.kingCheck == u.data.kingCheck && r.isWhiteTurn == u.data.isWhiteTurn
      && r.capturedBlacks == u.data.capturedBlacks && r.capturedWhites == u.data.capturedWhites
      && r.validMoves == u.data.validMoves && r.active == u.data.active
      && r.whiteKing == c.whiteKing && r.blackKing == c.blackKing
      && r.castlingRights == c.castlingRights && r.enPassant == c.enPassant
      && r.file == c.file && r.rank == c.rank
  {
    match u
    case InitDone(d) =>
      c.(positions := d.positions, whiteKing := d.whiteKing, blackKing := d.blackKing,
         isWhiteTurn := d.isWhiteTurn, castlingRights := d.castlingRights, enPassant := d.enPassant)
    case Selected(sq) => c.(active := Some(sq))
    case ValidMovesDone(v) => c.(validMoves := v.isValidAndSafe, enPassant := v.enPassant)
    case MoveChosen(sq) => c.(file := sq.row, rank := sq.col)
    case MoveDone(d) =>
      c.(positions := d.positions, prevMove := Some(d.prevMove), kingCheck := d.kingCheck,
         isWhiteTurn := d.isWhiteTurn, capturedBlacks := d.capturedBlacks, capturedWhites := d.capturedWhites,
         validMoves := d.validMoves, active := d.active)
  }

  // ---------------------------------------------------------------------
  // Transitions.

  /** The `on` table: only `idle` handles outside events. */
  function Send(m: Machine, e: Event): (r: Machine)
    ensures m.state != Idle ==> r == m
    ensures m.state == Idle && e.Select? ==>
      && r.state == CheckValidMoves && r.ctx.active == Some(e.target)
      && r.ctx.(active := m.ctx.active) == m.ctx
    ensures m.state == Idle && e.MoveTo? ==>
      && r.state == MakeMove
      && r.ctx.file == e.target.row && r.ctx.rank == e.target.col
      && r.ctx.(file := m.ctx.file, rank := m.ctx.rank) == m.ctx
    ensures m.state == Idle && e.Resign? ==> r == Machine(Resigned, m.ctx)
  {
    if m.state != Idle then m
    else match e
      case Select(sq) => Machine(CheckValidMoves, SetContext(m.ctx, Selected(sq)))
      case MoveTo(sq) => Machine(MakeMove, SetContext(m.ctx, MoveChosen(sq)))
      case Resign => Machine(Resigned, m.ctx)
  }

  /** The invoked service of the current state and its `onDone`
      transition back to `idle`. A service that throws leaves the machine
      in its state; `makeMove` keeps the tallies it already updated. */
  function Settle(m: Machine, fen: string): (r: Machine)
    ensures m.state in {Idle, CheckMate, Resigned} ==> r == m
    ensures r.state == m.state || r.state == Idle
  {
    match m.state
    case Initialize =>
      (match InitializeService(fen)
       case Success(d) => Machine(Idle, SetContext(m.ctx, InitDone(d)))
       case Failure(_) => m)
    case CheckValidMoves =>
      (match CheckValidMovesService(m.ctx)
       case Some(v) => Machine(Idle, SetContext(m.ctx, ValidMovesDone(v)))
       case None => m)
    case MakeMove =>
      (match MakeMoveService(m.ctx)
       case Success(d) => Machine(Idle, SetContext(m.ctx, MoveDone(d)))
       case Failure(t) => Machine(MakeMove, m.ctx.(capturedBlacks := t.capturedBlacks, capturedWhites := t.capturedWhites)))
    case _ => m
  }

  /** The machine once `initialize` has run on `fen`. */
  function Start(fen: string): (r: Machine)
    ensures r.state == Idle <==> InitializeService(fen).Success?
    ensures r.state != Idle ==> r == Created
  {
    Settle(Created, fen)
  }

  /** One outside event; when it enters a new state, that state's service
      runs. */
  function Dispatch(m: Machine, e: Event, fen: string): (r: Machine)
    ensures m.state != Idle ==> r == m
    ensures m.state == Idle ==> r.state != Initialize && r.state != CheckMate
    ensures r.state == Resigned && m.state != Resigned ==> e.Resign?
  {
    var n := Send(m, e);
    if n.state != m.state then Settle(n, fen) else n
  }

  // ---------------------------------------------------------------------
  // Material: pieces on the board plus pieces in the tallies.

  /** Every piece of `initial` is either still on the board or counted in
      one of the tallies. */
  predicate Conserved(c: Context, initial: Grid) {
    && IsGrid(c.positions)
    && forall p :: p != Empty ==>
         PieceCount(c.positions, p) + Tally(c.capturedWhites, p) + Tally(c.capturedBlacks, p) == PieceCount(initial, p)
  }

  /** The selection and its valid moves agree: nothing selected means no
      valid moves, otherwise they are `findValidMoves` of the current board
      and selection, and the en-passant list is empty (only `initialize`
      fills it, and it is cleared by the first selection). */
  predicate Fresh(c: Context) {
    && IsGrid(c.positions)
    && (c.active.None? ==> c.validMoves == {})
    && (c.active.Some? ==> c.enPassant == [])
    && (c.active.Some? ==>
          c.validMoves == FindValidMoves(c.positions, c.active.value, c.prevMove, c.whiteKing, c.blackKing).isValidAndSafe)
  }

  /** What holds between outside events when `initial` is the board
      `initialize` built: `checkValidMoves` is never left pending,
      `checkMate` is never entered, a pending `makeMove` is one that threw
      for lack of a selection, and otherwise material is conserved and the
      valid moves are fresh. */
  predicate Inv(m: Machine, initial: Grid) {
    match m.state
    case Initialize => m.ctx == DefaultContext
    case Idle => Conserved(m.ctx, initial) && Fresh(m.ctx)
    case CheckValidMoves => false
    case MakeMove => IsGrid(m.ctx.positions) && m.ctx.active.None?
    case CheckMate => false
    case Resigned => Conserved(m.ctx, initial) && Fresh(m.ctx)
  }

  /** A successful `makeMove` keeps material conserved and clears the
      selection. */
  lemma MakeMoveConserves(c: Context, initial: Grid)
    requires Conserved(c, initial)
    requires MakeMoveService(c).Success?
    ensures Conserved(SetContext(c, MoveDone(MakeMoveService(c).value)), initial)
    ensures Fresh(SetContext(c, MoveDone(MakeMoveService(c).value)))
  {
    var d := MakeMoveService(c).value;
    var b: Grid := c.positions;
    var to := Square(c.file, c.rank);
    var target := At(b, to);
    forall p | p != Empty
      ensures PieceCount(d.positions, p) + Tally(d.capturedWhites, p) + Tally(d.capturedBlacks, p) == PieceCount(initial, p)
    {
      PieceCountRelocate(b, c.active.value, to, p);
    }
  }

  /** `initialize` either fails, leaving the machine as created, or reaches
      `idle` where the invariant holds for the board it built. */
  lemma StartInv(fen: string)
    ensures InitializeService(fen).Failure? ==> Start(fen) == Created
    ensures InitializeService(fen).Success? ==>
      && Start(fen).state == Idle
      && Inv(Start(fen), InitializeService(fen).value.positions)
  {
  }

  /** Every outside event keeps the invariant. */
  lemma DispatchInv(m: Machine, e: Event, fen: string, initial: Grid)
    requires Inv(m, initial)
    ensures Inv(Dispatch(m, e, fen), initial)
  {
    if m.state == Idle {
      match e {
        case Select(sq) => SelectInv(m, sq, fen, initial);
        case MoveTo(sq) => MoveInv(m, sq, fen, initial);
        case Resign =>
      }
    }
  }

  /** `SELECT` in `idle` keeps the invariant. */
  lemma SelectInv(m: Machine, sq: Square, fen: string, initial: Grid)
    requires Inv(m, initial) && m.state == Idle
    ensures Inv(Dispatch(m, Select(sq), fen), initial)
  {
  }

  /** `MOVE` in `idle` keeps the invariant, whether `makeMove` succeeds or
      throws for lack of a selection. */
  lemma MoveInv(m: Machine, sq: Square, fen: string, initial: Grid)
    requires Inv(m, initial) && m.state == Idle
    ensures Inv(Dispatch(m, MoveTo(sq), fen), initial)
  {
    var n := Send(m, MoveTo(sq));
    if MakeMoveService(n.ctx).Success? {
      MakeMoveConserves(n.ctx, initial);
    }
  }

  /** Only `idle` reacts to outside events; in particular `checkMate` and
      `resigned` are final. */
  lemma OnlyIdleListens(m: Machine, e: Event, fen: string)
    requires m.state != Idle
    ensures Dispatch(m, e, fen) == m
  {
  }

  /** No transition enters `checkMate`, and `resigned` is entered only by
      `RESIGN` from `idle`. */
  lemma FinalStatesEntered(m: Machine, e: Event, fen: string)
    ensures m.state != CheckMate ==> Dispatch(m, e, fen).state != CheckMate
    ensures m.state != Resigned && Dispatch(m, e, fen).state == Resigned ==> m.state == Idle && e == Resign
  {
  }

  /** `SELECT` in `idle`: the selection is recorded, `checkValidMoves`
      computes its moves, and the machine is back in `idle` with nothing
      else changed. */
  lemma SelectDispatch(m: Machine, sq: Square, fen: string, initial: Grid)
    requires Inv(m, initial) && m.state == Idle
    ensures var r := Dispatch(m, Select(sq), fen);
      && r.state == Idle
      && r.ctx.active == Some(sq)
      && r.ctx.validMoves == FindValidMoves(m.ctx.positions, sq, m.ctx.prevMove, m.ctx.whiteKing, m.ctx.blackKing).isValidAndSafe
      && r.ctx.enPassant == []
      && r.ctx.(active := m.ctx.active, validMoves := m.ctx.validMoves, enPassant := m.ctx.enPassant) == m.ctx
  {
  }

  /** `MOVE` in `idle` with a selection: the piece is moved, the capture
      tallied under its colour, the move recorded, the turn flipped, the
      selection and its moves cleared, and the cached kings, castling
      rights and en-passant list left alone. `kingCheck` is `isKingCheck` at
      the opponent's cached king, run with the moved piece's colour. */
  lemma MoveDispatch(m: Machine, sq: Square, fen: string, initial: Grid)
    requires Inv(m, initial) && m.state == Idle && m.ctx.active.Some?
    ensures var r := Dispatch(m, MoveTo(sq), fen);
      var from := m.ctx.active.value;
      var b: Grid := m.ctx.positions;
      var target := At(b, sq);
      && r.state == Idle
      && r.ctx.positions == Relocate(b, from, sq)
      && r.ctx.prevMove == Some(Move(from, sq))
      && r.ctx.isWhiteTurn == !m.ctx.isWhiteTurn
      && r.ctx.active == None && r.ctx.validMoves == {}
      && r.ctx.whiteKing == m.ctx.whiteKing && r.ctx.blackKing == m.ctx.blackKing
      && r.ctx.castlingRights == m.ctx.castlingRights && r.ctx.enPassant == m.ctx.enPassant
      && (forall p :: Tally(r.ctx.capturedWhites, p) == Tally(m.ctx.capturedWhites, p)
            + (if p == target && p != Empty && IsPieceWhite(p) then 1 else 0))
      && (forall p :: Tally(r.ctx.capturedBlacks, p) == Tally(m.ctx.capturedBlacks, p)
            + (if p == target && p != Empty && !IsPieceWhite(p) then 1 else 0))
      && var king := if IsPieceWhite(At(r.ctx.positions, sq)) then m.ctx.blackKing else m.ctx.whiteKing;
         (r.ctx.kingCheck <==> king.Some? && IsKingCheck(r.ctx.positions, king.value.row, king.value.col, sq))
  {
    var n := Send(m, MoveTo(sq));
    assert n.ctx.file == sq.row && n.ctx.rank == sq.col;
    assert Square(n.ctx.file, n.ctx.rank) == sq;
  }

  /** `MOVE` in `idle` with nothing selected: `makeMove` throws after
      counting the capture, so the machine stays in `makeMove` with the
      board untouched but the tally already raised. */
  lemma MoveWithoutSelection(m: Machine, sq: Square, fen: string, initial: Grid)
    requires Inv(m, initial) && m.state == Idle && m.ctx.active.None?
    ensures var r := Dispatch(m, MoveTo(sq), fen);
      && r.state == MakeMove
      && r.ctx.positions == m.ctx.positions
      && Tallies(r.ctx.capturedBlacks, r.ctx.capturedWhites) == CountCapture(m.ctx, At(m.ctx.positions, sq))
  {
    var n := Send(m, MoveTo(sq));
    assert Square(n.ctx.file, n.ctx.rank) == sq;
  }

  /** `initialize` on a string whose en-passant field is `-` and whose
      placement `boardBuilder` accepts. */
  lemma InitializeAccepts(fen: string, layout: Layout)
    requires |Split(fen, ' ')| >= 4 && Split(fen, ' ')[3] == "-"
    requires BoardBuilder(Split(fen, ' ')[0]) == Success(layout)
    ensures InitializeService(fen)
         == Success(InitData(layout.positions, layout.whiteKing, layout.blackKing, Split(fen, ' ')[1] == "w",
                             set c | c in Split(fen, ' ')[2], []))
  {
  }

  /** On the fixed start string `initialize` yields the standard array,
      both kings on their home squares, White to move, all four castling
      letters and no en-passant square. */
  lemma InitializeStart(fen: string)
    requires fen == StartFen
    ensures InitializeService(fen)
         == Success(InitData(StartGrid, Some(Square(7, 4)), Some(Square(0, 4)), true, {'K', 'Q', 'k', 'q'}, []))
  {
    StartFields(fen);
    var fields := StartFieldTexts;
    var layout := Layout(StartGrid, Some(Square(7, 4)), Some(Square(0, 4)));
    StartLayout(fields[0]);
    InitializeAccepts(fen, layout);
    CastlingLetters(fields[2]);
  }

  lemma CastlingLetters(t: string)
    requires t == "KQkq"
    ensures (set c | c in t) == {'K', 'Q', 'k', 'q'}
  {
  }

  /** The app's machine after `initialize`: idle on the standard array,
      with every other field at its default but the kings, the turn and the
      castling rights. */
  lemma StartMachine(fen: string)
    requires fen == StartFen
    ensures Start(fen) == Machine(Idle, DefaultContext.(positions := StartGrid, whiteKing := Some(Square(7, 4)),
      blackKing := Some(Square(0, 4)), isWhiteTurn := true, castlingRights := {'K', 'Q', 'k', 'q'}))
  {
    InitializeStart(fen);
  }
}
