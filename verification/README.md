# chessty move engine and game machine in Dafny

chessty is a React Native chess app. This project models its rule core:

- `validMoves.ts`. The move generators for sliders, knights and pawns. The ray tests `checkHit`, `isKingCheck` and `isPiecePinned`. `findValidMoves`, which publishes the destinations as `"row col"` keys.
- `gameMachine.ts`. The xstate machine (`initialize`, `idle`, `checkValidMoves`, `makeMove`, `checkMate`, `resigned`), its three services, the `setContext` reducer and its FEN `boardBuilder`.
- The touch rule of `GameBoardV2.tsx`, which turns a touch into a `SELECT` or `MOVE` event.
- `GameBoard.tsx`. The same touch rule driving component state, its own copy of `boardBuilder`, and its copy-on-write move.
- `GameScreen.tsx`. Its second placement parser and its touch handler, which moves pieces in place.

The board is an 8x8 grid of characters, with `-` for an empty square. Row 0 is Black's back rank. A square is `Square(row, col)`. The JavaScript arrays `[]` / `[r, c]` used for "no square" / "a square" become `Option<Square>`. Throwing becomes `Failure`/`None`.

The code differs from a full chess engine in several ways, and the model follows the code, not the textbook rules:

- There is no promotion, castling or checkmate detection.
- Castling rights are read but never used.
- The `checkMate` state is never entered.
- The en-passant list that `findValidMoves` returns is always empty.

Modules, one file each:

- `Outcomes` (outcomes.dfy): `Option` and `Result`.
- `JsText` (js_text.dfy): the JavaScript string built-ins the code relies on: `Number` of one character, `split`, `parseInt`, ASCII case mapping.
- `Board` (board.dfy): the grid, `isPieceWhite`, the move keys and piece counts.
- `Placement` (placement.dfy): `boardBuilder` of `gameMachine.ts` as a function.
- `StartPosition` (start_position.dfy): what `boardBuilder` and `split` make of the fixed start string.
- `Attacks` (attacks.dfy): `checkHit`, `isKingCheck`, `isPiecePinned`.
- `ValidMoves` (valid_moves.dfy): the generators and `findValidMoves`.
- `GameMachine` (game_machine.dfy): services, reducer and transitions. `Send` is the machine's reaction to an outside event. `Settle` runs the service of the state just entered and takes its `onDone` edge, or leaves the machine in place when the service throws. `Dispatch` is one event followed by its service.
- `TouchRule` (touch.dfy): `handleTouch` of `GameBoardV2.tsx`/`GameBoard.tsx`.
- `LegacyBoard` (legacy_board.dfy): `GameBoard.tsx`, with its `boardBuilder` written as loops.
- `GameScreen` (game_screen.dfy): `GameScreen.tsx`.

## Model

| member | source | states |
|---|---|---|
| JsText.NumberOfChar | src/machines/gameMachine.ts:91-92 | `Number` of one character is defined exactly for a digit (its value) or JavaScript white space (0); any other character is `NaN` |
| JsText.SplitOfJoined | src/machines/gameMachine.ts:81-82 | splitting a separator-joined list of separator-free parts gives back exactly those parts |
| JsText.JoinSplit | src/machines/gameMachine.ts:81-82 | `split` loses nothing: joining its pieces with the separator rebuilds the input |
| JsText.SplitCount | src/machines/gameMachine.ts:81-82 | `split` gives one more piece than the string has separators, so a placement has 8 rows exactly when it has 7 slashes |
| JsText.SplitPiecesLackSeparator | src/machines/gameMachine.ts:81-82 | no piece of a split contains the separator |
| JsText.ParseIntNeedsDigit | src/utils/validMoves.ts:233 | `parseInt` of text without a digit is `NaN` |
| JsText.ParseIntNegative | src/utils/validMoves.ts:233 | `parseInt` gives a negative number only for text holding a `-` |
| JsText.ParseIntOfDigits | src/utils/validMoves.ts:233 | `parseInt` of a non-empty run of digits is their decimal value |
| JsText.ParseIntOfDigit | src/machines/gameMachine.ts:198 | `parseInt` of a single digit character is that digit's value |
| Board.Relocate | src/machines/gameMachine.ts:248-249 | a move puts the origin's piece on the destination, empties the origin and leaves every other square alone |
| Board.IsPieceWhite | src/utils/validMoves.ts:64-66 | a cell counts as white exactly when upper-casing leaves it unchanged: all of `KQRBNP` and the empty marker `-`, none of `kqrbnp` |
| Board.KeyRoundTrip | src/utils/validMoves.ts:231-233 | reading a published `"row col"` key back with `split(' ')` and `parseInt` gives the square it was made from |
| Board.KeyInjective | src/utils/validMoves.ts:157 | two squares share a key exactly when they are the same square |
| Board.KeysMembership | src/utils/validMoves.ts:231-236 | a square's key is in a set of keys exactly when the square is in the set the keys were made from |
| Board.PieceCountRelocate | src/machines/gameMachine.ts:248-249 | a move takes off the board exactly the piece standing on the destination and no other piece |
| Placement.BoardBuilder | src/machines/gameMachine.ts:78-112 | throws the row-count error exactly when the placement does not have 8 rows. Succeeds exactly when all 8 rows are 8 files wide. A column error names the first row that is not 8 wide. On success each row is laid out from its text, and each king is the last occurrence of `K`/`k` in reading order |
| Placement.PlaceRowWrites | src/machines/gameMachine.ts:88-101 | reading a row from a file on never changes a cell before that file, and every cell it changes receives a letter of the row text |
| Placement.BoardBuilderPlacesLetters | src/machines/gameMachine.ts:91-99 | on success every letter of a row lands on the file given by the width of the text before it |
| Placement.BoardBuilderLeavesGaps | src/machines/gameMachine.ts:79 | on success a square that no letter lands on keeps the empty marker |
| Placement.LastSquareIsLast | src/machines/gameMachine.ts:95-98 | the recorded king square holds that king letter, and no later character of that row and no later row holds it |
| StartPosition.StartRows | src/machines/gameMachine.ts:192-194 | the start string's placement field splits into the eight rank texts, whether or not the other FEN fields are attached |
| StartPosition.StartLayout | src/machines/gameMachine.ts:192-194 | `boardBuilder` of the start string gives the standard array with the white king on (7,4) and the black king on (0,4) |
| Attacks.CheckHitIff | src/utils/validMoves.ts:68-88 | the ray walk reports a hit exactly when, some number of steps out, it meets a piece of the other colour that strikes along that ray. Every square before it must be of the mover's colour on the moving piece's row or column, and none may be the probed square |
| Attacks.CheckHitWithinSeven | src/utils/validMoves.ts:69 | from a square on the board, a ray's hit is always found within seven steps |
| Attacks.IsPiecePinned | src/utils/validMoves.ts:138-148 | with no cached king for the mover's colour nothing is ever reported pinned |
| Attacks.OneRayIff | src/utils/validMoves.ts:132-133 | one ray fired from next to a square reports a hit exactly when, some number of squares out, it meets an enemy that strikes along that ray and every square before it is one `checkHit` walks through: of the mover's colour (the empty marker counting as white), on the moving piece's row or column, and not the probed square |
| Attacks.AnyRayHitsIff | src/utils/validMoves.ts:131-134 | the loop over the eight directions reports a hit exactly when one of those rays strikes at a located enemy |
| Attacks.KnightOffsetsIff | src/utils/validMoves.ts:102-105 | the eight listed knight offsets find a letter exactly when that letter stands a (1,2) or (2,1) jump away on the board |
| Attacks.KingCheckIff | src/utils/validMoves.ts:95-136 | `isKingCheck` reports check exactly when an enemy pawn stands diagonally in front of the king's new square (a `p` one row up for White, a `P` one row down for Black), or an enemy knight a knight's jump away, or, along one of the eight rays from that square, the walk of `checkHit`: it passes only squares of the active piece's colour (the empty marker counting as white) that lie on the active piece's row or column and are not the probed square, and stops with a hit at the first other-coloured piece that strikes along that ray. Own pieces on the active piece's row or column do not block it, and every other square, an empty one included for a white mover, does |
| Attacks.PinnedIff | src/utils/validMoves.ts:138-148 | `isPiecePinned` reports a pin exactly when the mover's colour has a cached king and, along one of the eight rays from that king, the walk of `checkHit`: it passes only squares of the active piece's colour (the empty marker counting as white) that lie on the active piece's row or column and are not the probed square, and stops with a hit at the first other-coloured piece that strikes along that ray. Own pieces on the active piece's row or column do not block it, and every other square, an empty one included for a white mover, does. The position is the current one, not the one after the move: with a white king on (7,7), a white bishop on (6,6) and a black queen on (4,4), the bishop's move to (5,7) is not reported pinned, because the empty (5,5) is off the bishop's row and column |
| Attacks.PinWalkStopsAtEmpty | src/utils/validMoves.ts:70-71 | with a white king on (7,7), a white bishop on (6,6) and a black queen on (4,4), the bishop's step to (5,7) is not reported pinned: the walk passes the bishop on its own row and stops at the empty (5,5), which is off that row and column |
| ValidMoves.WalkAvoidsOwn | src/utils/validMoves.ts:202-214 | one ray of `loopOverMove` never yields a square of the mover's colour, and yields at most as many squares as its depth |
| ValidMoves.SlideAlongAvoidsOwn | src/utils/validMoves.ts:199 | the union of the walks along the piece's rays never holds a square of the mover's colour |
| ValidMoves.SlidingMoves | src/utils/validMoves.ts:195-200 | `slidingMoves` never yields a square holding a piece of the mover's colour |
| ValidMoves.WalkIff | src/utils/validMoves.ts:202-214 | one ray of `loopOverMove` yields a square exactly when it is reached within the depth over empty squares and is empty or holds a piece of the other colour |
| ValidMoves.RaysForPiece | src/utils/validMoves.ts:196-197 | a rook walks the four orthogonal rays, a bishop the four diagonals, and a queen or king all eight directions |
| ValidMoves.SlidingMovesIff | src/utils/validMoves.ts:195-200 | `slidingMoves` yields exactly the squares some ray of the piece reaches within its depth (1 for a king, 15 otherwise) |
| ValidMoves.KnightMoves | src/utils/validMoves.ts:183-193 | every knight destination is a (1,2) or (2,1) jump away and empty or of the other colour |
| ValidMoves.KnightMovesIff | src/utils/validMoves.ts:183-193 | a knight reaches exactly the on-board (1,2)/(2,1) jumps whose square is empty or holds the other colour |
| ValidMoves.KnightMovesAtMostEight | src/utils/validMoves.ts:185-187 | a knight never has more than eight destinations |
| ValidMoves.Pushes | src/utils/validMoves.ts:157-158 | a pawn steps one square forward onto an empty square, or two from its home row when the landing square is empty (the square in between is not checked) |
| ValidMoves.Captures | src/utils/validMoves.ts:161-162 | a pawn captures diagonally forward onto a non-empty square of the other colour. A black pawn's capture towards the higher column also needs `row + 1 < 7` (line 174) |
| ValidMoves.EnPassant | src/utils/validMoves.ts:165-166 | the en-passant diagonal is offered exactly when the last move was a two-row advance of an enemy pawn, that landed on the mover's row after leaving from a column adjacent to the mover's |
| ValidMoves.PawnMoves | src/utils/validMoves.ts:150-181 | a pawn on its far row has no moves. Otherwise its moves are exactly its pushes, captures and en-passant square, upward for white and downward for black |
| ValidMoves.PawnMovesForward | src/utils/validMoves.ts:155-178 | every pawn destination is one row forward and at most one column aside, or two rows straight forward |
| ValidMoves.PseudoLegal | src/utils/validMoves.ts:221-228 | a cell that is not one of `kqrbpn` in either case (the empty marker included) has no destinations; any piece but a pawn never gets a square of its own colour |
| ValidMoves.Safe | src/utils/validMoves.ts:229-235 | a destination passes exactly when it is a king move onto a square `isKingCheck` finds unattacked, or the mover's colour has no cached king, or no ray from that king meets an enemy bishop, rook or queen striking along it in the walk `PinnedIff` describes, on the board as it stands before the move |
| ValidMoves.FindValidMoves | src/utils/validMoves.ts:216-240 | the published keys are a subset of the pseudo-legal destinations' keys. An empty square has none. The en-passant list is always empty |
| ValidMoves.FindValidMovesIff | src/utils/validMoves.ts:221-237 | a square is published exactly when its piece's generator yields it and it passes the safety test: a king move onto a square `isKingCheck` finds unattacked, or no cached king for the mover's colour, or no ray from that king on which the `checkHit` walk (the one `PinnedIff` describes) meets an enemy bishop, rook or queen |
| ValidMoves.FindValidMovesKeysParse | src/utils/validMoves.ts:231-233 | every published key parses back to a pseudo-legal destination |
| GameMachine.InitializeService | src/machines/gameMachine.ts:184-210 | on success the board is `boardBuilder` of the placement field, White moves iff the second field is `w`, the castling set holds exactly the third field's letters, and `-` means no en-passant square. A placement error is `boardBuilder`'s own |
| GameMachine.CheckValidMovesService | src/machines/gameMachine.ts:211-223 | succeeds exactly when the board is built and a square is selected, and then returns `findValidMoves` of the context |
| GameMachine.CountCapture | src/machines/gameMachine.ts:238-247 | the captured piece is counted once under its own colour's tally and every other count is unchanged; an empty target counts nothing |
| GameMachine.MakeMoveService | src/machines/gameMachine.ts:224-266 | throws with the tallies untouched when the board is not built or the target is off it. It succeeds exactly when, in addition, a piece is selected. Then the piece is moved, the capture tallied, the move recorded, the turn flipped and the selection and its moves cleared. `kingCheck` is `isKingCheck` at the opponent's cached king (`false` when there is none), run with the moved piece's colour |
| GameMachine.SetContext | src/machines/gameMachine.ts:269-317 | each update writes only its own fields. `initialize` sets board, kings, turn, castling and en passant; `SELECT` sets the selection; valid moves set moves and en passant; `MOVE` sets the target; `makeMove` sets board, last move, check flag, turn, both tallies, valid moves and selection to the service's values and leaves kings, castling, en passant and target alone |
| GameMachine.Send | src/machines/gameMachine.ts:132-144 | only `idle` reacts to outside events: `SELECT` records the square and enters `checkValidMoves`, `MOVE` records the target and enters `makeMove`, `RESIGN` enters `resigned`, and nothing else changes |
| GameMachine.Settle | src/machines/gameMachine.ts:114-180 | a service either returns to `idle` or leaves the state unchanged; `idle` and the final states run nothing |
| GameMachine.Start | src/machines/gameMachine.ts:117-131 | the machine leaves `initialize` for `idle` exactly when the `initialize` service succeeds, and otherwise stays as created |
| GameMachine.Dispatch | src/machines/gameMachine.ts:132-180 | outside `idle` an event changes nothing. From `idle` no event leads back to `initialize` or into `checkMate`, and only `RESIGN` enters `resigned` |
| GameMachine.MakeMoveConserves | src/machines/gameMachine.ts:238-255 | a completed move keeps every piece of the initial board either on the board or in a tally, and leaves no stale valid moves |
| GameMachine.StartInv | src/machines/gameMachine.ts:120-131 | `initialize` either fails and leaves the machine as created, or reaches `idle` with material conserved and valid moves consistent |
| GameMachine.DispatchInv | src/machines/gameMachine.ts:132-173 | every outside event keeps the invariant: material conserved in `idle` and `resigned` (a `makeMove` stuck after a failed move has a built board and no selection), valid moves belong to the selection, `checkValidMoves` never left pending, `checkMate` never entered |
| GameMachine.OnlyIdleListens | src/machines/gameMachine.ts:174-179 | outside of `idle` every event is ignored, so `checkMate` and `resigned` are final |
| GameMachine.FinalStatesEntered | src/machines/gameMachine.ts:142 | no event ever enters `checkMate`, and `resigned` is entered only by `RESIGN` from `idle` |
| GameMachine.SelectDispatch | src/machines/gameMachine.ts:145-156 | `SELECT` from `idle` ends in `idle` with the new selection, its `findValidMoves` keys and an empty en-passant list, and nothing else changed |
| GameMachine.MoveDispatch | src/machines/gameMachine.ts:157-173 | `MOVE` from `idle` with a selection ends in `idle`. The piece is moved, the capture tallied by colour, the move recorded and the turn flipped. Selection and moves are cleared; kings, castling and en passant are kept. The check flag is `isKingCheck` at the opponent's cached king, run with the moved piece's colour, and false when that king is not cached |
| GameMachine.MoveKingCheckIff | src/machines/gameMachine.ts:250-252 | after a move the check flag is set exactly when the opponent of the moved piece has a cached king and, with the colours as the moved piece sees them, a pawn of the opposite colour stands diagonally in front of that king, a knight of the opposite colour a jump away, or the `checkHit` walk from that king meets a bishop, rook or queen of the opposite colour. The test is run with the moved piece's colour, so it looks for the mover's opponent's own pieces around that opponent's king |
| GameMachine.MoveWithoutSelection | src/machines/gameMachine.ts:237-248 | `MOVE` with nothing selected leaves the machine stuck in `makeMove` with the board untouched but the capture already tallied |
| GameMachine.InitializeAccepts | src/machines/gameMachine.ts:193-198 | a FEN with at least four fields, `-` for en passant and a valid placement initializes to its board, kings, turn and castling letters |
| GameMachine.InitializeStart | src/machines/gameMachine.ts:192-198 | the fixed start string gives the standard array, kings on (7,4) and (0,4), White to move, castling `KQkq` and no en-passant square |
| GameMachine.StartMachine | src/machines/gameMachine.ts:54-70 | after `initialize` the machine is idle on the standard array, with the default context otherwise |
| TouchRule.Decide | src/components/GameBoardV2.tsx:135-143 | with nothing selected, a touch selects exactly a piece of the side to move. With a selection, a touch selects exactly a piece of the selection's colour, and it is a move exactly when the square is another, valid, non-friendly square |
| TouchRule.ToEvent | src/components/GameBoardV2.tsx:138-141 | a touch sends an event exactly when the rule asks for one |
| TouchRule.TouchNeverStalls | src/components/GameBoardV2.tsx:135-143 | from `idle`, every event the touch rule sends brings the machine back to `idle` |
| TouchRule.TouchMovesAreValid | src/components/GameBoardV2.tsx:140-141 | a `MOVE` the rule sends from `idle` targets a key that `findValidMoves` produced for the current board and selection |
| LegacyBoard.ReadRow | src/components/GameBoard.tsx:34-46 | the inner loop lays out the row as the functional placement does, reaches its width, and records the last file of each king letter |
| LegacyBoard.ReadRows | src/components/GameBoard.tsx:33-50 | the row loop gives the same board, kings and first bad row as the functional definition |
| LegacyBoard.BuildBoard | src/components/GameBoard.tsx:23-57 | the component's duplicate `boardBuilder` gives exactly the result of `gameMachine.ts`'s |
| LegacyBoard.ComponentKings | src/components/GameBoard.tsx:69-71 | the component's fixed placement builds the standard array with kings on (7,4) and (0,4) |
| LegacyBoard.Touch | src/components/GameBoard.tsx:103-123 | a touch the rule ignores changes nothing. A selection recomputes the valid moves (lines 83-85). A move relocates the piece on a copy, records it, clears selection and moves, and flips the turn |
| LegacyBoard.Initial | src/components/GameBoard.tsx:60-81 | the first render shows the board `boardBuilder` makes of the fixed start string, with no selection, no last move and no valid moves (consistent whatever king squares are used), and takes the side to move from the `turn` prop |
| LegacyBoard.TouchKeepsConsistent | src/components/GameBoard.tsx:83-121 | the valid moves always belong to the current selection. Only a move changes the board, and it removes just the piece on the destination |
| GameScreen.Step | src/screens/GameScreen.tsx:14-24 | one character of the loop throws exactly when a piece letter is written past the eighth row. A piece letter in rows 0-7 writes itself at the cursor's cell, when that is on the board, changes no other cell and moves the cursor one file on. `/` moves to the next row at file 0. Any other character leaves the board alone and moves the cursor by its `Number` value plus one (by the value alone when fixed); a `NaN` value, or a `NaN` cursor, makes the cursor `NaN` |
| GameScreen.ReadRowCount | src/screens/GameScreen.tsx:13-24 | the loop ends in the start row plus the number of `/`. Once past the eighth row any piece letter throws, and text with too few `/` to leave the board never throws |
| GameScreen.ScreenBuildThrows | src/screens/GameScreen.tsx:9-26 | the parser, as written or fixed, builds a board from any text with at most seven `/`, and throws when a piece letter follows an eighth `/` |
| GameScreen.ScanAgrees | src/screens/GameScreen.tsx:9-26 | on placements made only of piece letters and numeric characters that `boardBuilder` accepts, with digits only at the end of each row, the screen's parser as written builds the same board |
| GameScreen.FixedMatchesBoardBuilder | src/screens/GameScreen.tsx:17-18 | with a digit advancing the cursor by its value, the parser agrees with `boardBuilder` on every placement made only of piece letters and numeric characters that `boardBuilder` accepts |
| GameScreen.ScreenBuildStart | src/screens/GameScreen.tsx:31-32 | the screen's parser as written builds the standard array from the start placement |
| GameScreen.DigitBeforeLetterShifts | src/screens/GameScreen.tsx:17-23 | on `4P3/8/8/8/8/8/8/8`, `boardBuilder` puts the pawn on file 4 but the parser as written puts it on file 5 |
| GameScreen.ShiftedFixed | src/screens/GameScreen.tsx:17-18 | the corrected parser puts that pawn on file 4 |
| GameScreen.ScreenTouch | src/screens/GameScreen.tsx:138-146 | with nothing selected any touched square is selected. Touching the selection again does nothing. Any other square receives the selection's content, the origin is emptied, the rest is kept and the destination is remembered |
| GameScreen.AnyTwoTouchesMove | src/screens/GameScreen.tsx:139-145 | any two different squares touched in turn move the first one's content onto the second, with no rule, turn or colour check |
| GameScreen.TouchSameSquareKeepsSelection | src/screens/GameScreen.tsx:140 | touching a selected square again neither moves nor deselects |
| GameScreen.ScreenTouchMaterial | src/screens/GameScreen.tsx:142-143 | a touch takes off the board at most the piece on the destination, and only when it moves |

## Left out

- Rendering, layout, sound (`playMoveSound`), fonts and the pop-ups: they do not touch the rules.
- React state timing: each handler's `setState` calls are applied together, as one step.
- xstate's interpreter and its asynchrony: services become plain calls, and an outside event is followed by its service.
- The shared mutable `Map`/`Set` objects in the context are modelled as values. The one visible effect of sharing is the tally update that survives a throw in `makeMove`, which is modelled.
- `GameMachine.Settle` takes the FEN as a parameter: `initialize` hard-codes the start string, which `InitializeStart` and `StartMachine` instantiate.
- GameMachine.InitializeService: when the en-passant field is not `-`, the source stores `NaN` for a rank character that is not a digit, or for a field shorter than two characters. The model rejects such a field instead (`UnsupportedEnPassant`), since no real board square can come of it.
- JsText.ParseInt: the hexadecimal `0x` prefix and radix argument of `parseInt` are not modelled; the keys it reads are decimal.
- JsText.ToUpper: case mapping covers ASCII letters only; the grid never holds other letters in the app's own FEN.
- GameScreen.Step: a letter written at a file off the board grows the JavaScript row past eight cells. The model drops it, because only the eight rendered cells are ever read.
- `baseLogic.ts`, the header/footer/player components and `App.tsx`: not part of the rule core.
- Promotion, castling moves, checkmate and stalemate detection: the code does not implement them.

## Findings

| source | as written | input that shows it | evidently intended | confidence | as-written member | corrected member |
|---|---|---|---|---|---|---|
| src/screens/GameScreen.tsx:17-23 | a digit adds `Number(char)` to the file cursor, then the loop's `j += 1` adds one more (only the `/` branch compensates, by setting `j = -1`) | `4P3/8/8/8/8/8/8/8`: the pawn lands on file 5 instead of file 4 | a digit advances the cursor by its value, as `boardBuilder` in `gameMachine.ts` does | not executed | GameScreen.DigitBeforeLetterShifts | GameScreen.FixedMatchesBoardBuilder |
