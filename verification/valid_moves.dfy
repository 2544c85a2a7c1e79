/** Move generation of `validMoves.ts`: pseudo-legal destinations for
    sliders (king, queen, rook, bishop), knights and pawns, then the safety
    filter of `findValidMoves`. Destinations are squares here and become
    `"row col"` keys only at the end, as in the source. */
module ValidMoves {
  import opened Outcomes
  import opened JsText
  import opened Board
  import opened Attacks

  // ---------------------------------------------------------------------
  // Sliders: `slidingMoves` and `loopOverMove`.

  /** The step list of `slidingMoves`: four orthogonal steps, then four
      diagonal ones. */
  const Moves: seq<(int, int)> := [(0, 1), (0, -1), (1, 0), (-1, 0), (1, -1), (1, 1), (-1, 1), (-1, -1)]

  /** Queen and king use every step, a rook the first four, anything else
      (a bishop) the last four. */
  function RaysFor(piece: char): seq<(int, int)> {
    var t := ToLower(piece);
    if t == 'q' || t == 'k' then Moves else if t == 'r' then Moves[..4] else Moves[4..]
  }

  /** A king takes one step along a ray, every other slider up to fifteen. */
  function LoopDepth(piece: char): nat {
    if ToLower(piece) == 'k' then 1 else 15
  }

  /** `loopOverMove` from `(x, y)` on: an empty square is added and the
      walk goes on; an occupied square is added when its colour differs
      from the mover's, and the walk stops there. */
  function Walk(b: Grid, x: int, y: int, dx: int, dy: int, depth: nat, activeWhite: bool): set<Square>
    decreases depth
  {
    if depth == 0 || !InBounds(x, y) then {}
    else
      var cell := b[x][y];
      var here := if cell == Empty || activeWhite != IsPieceWhite(cell) then {Square(x, y)} else {};
      if cell != Empty then here
      else here + Walk(b, x + dx, y + dy, dx, dy, depth - 1, activeWhite)
  }

  /** Square `k` steps along the walk is a destination: it is within the
      depth, every square before it is empty, and it is empty or holds a
      piece of the other colour. */
  predicate WalkReaches(b: Grid, x: int, y: int, dx: int, dy: int, depth: nat, activeWhite: bool,
                        sq: Square, k: nat) {
    && k < depth
    && sq.row == Offset(x, dx, k) && sq.col == Offset(y, dy, k)
    && (At(b, sq) == Empty || activeWhite != IsPieceWhite(At(b, sq)))
    && forall j: nat :: j < k ==> InBounds(Offset(x, dx, j), Offset(y, dy, j)) && b[Offset(x, dx, j)][Offset(y, dy, j)] == Empty
  }

  /** A square reached `k` steps after the next square is reached `k + 1`
      steps after an empty square. */
  lemma WalkReachesBack(b: Grid, x: int, y: int, dx: int, dy: int, sx: int, sy: int, depth: nat,
                        activeWhite: bool, sq: Square, k: nat)
    requires IsDirection(dx, dy) && sx == x + dx && sy == y + dy && depth > 0
    requires InBounds(x, y) && b[x][y] == Empty
    requires WalkReaches(b, sx, sy, dx, dy, depth - 1, activeWhite, sq, k)
    ensures WalkReaches(b, x, y, dx, dy, depth, activeWhite, sq, k + 1)
  {
    assert Offset(sx, dx, k) == Offset(x, dx, k + 1) && Offset(sy, dy, k) == Offset(y, dy, k + 1);
    forall j: nat | j < k + 1
      ensures InBounds(Offset(x, dx, j), Offset(y, dy, j)) && b[Offset(x, dx, j)][Offset(y, dy, j)] == Empty
    {
      if j > 0 {
        assert Offset(x, dx, j) == Offset(sx, dx, j - 1) && Offset(y, dy, j) == Offset(sy, dy, j - 1);
      }
    }
  }

  /** A square reached `k + 1` steps out is reached `k` steps after the
      next square. */
  lemma WalkReachesOn(b: Grid, x: int, y: int, dx: int, dy: int, sx: int, sy: int, depth: nat,
                      activeWhite: bool, sq: Square, k: nat)
    requires IsDirection(dx, dy) && sx == x + dx && sy == y + dy && depth > 0
    requires WalkReaches(b, x, y, dx, dy, depth, activeWhite, sq, k + 1)
    ensures WalkReaches(b, sx, sy, dx, dy, depth - 1, activeWhite, sq, k)
  {
    assert Offset(sx, dx, k) == Offset(x, dx, k + 1) && Offset(sy, dy, k) == Offset(y, dy, k + 1);
    forall j: nat | j < k
      ensures InBounds(Offset(sx, dx, j), Offset(sy, dy, j)) && b[Offset(sx, dx, j)][Offset(sy, dy, j)] == Empty
    {
      assert Offset(sx, dx, j) == Offset(x, dx, j + 1) && Offset(sy, dy, j) == Offset(y, dy, j + 1);
    }
  }

  /** A walk that stops at once reaches at most its first square. */
  lemma WalkStops(b: Grid, x: int, y: int, dx: int, dy: int, depth: nat, activeWhite: bool, sq: Square)
    requires IsDirection(dx, dy)
    requires depth == 0 || !InBounds(x, y) || b[x][y] != Empty
    ensures sq in Walk(b, x, y, dx, dy, depth, activeWhite)
        <==> exists k: nat :: WalkReaches(b, x, y, dx, dy, depth, activeWhite, sq, k)
  {
    assert Offset(x, dx, 0) == x && Offset(y, dy, 0) == y;
    forall k: nat | WalkReaches(b, x, y, dx, dy, depth, activeWhite, sq, k)
      ensures k == 0
    {
    }
    if sq in Walk(b, x, y, dx, dy, depth, activeWhite) {
      assert WalkReaches(b, x, y, dx, dy, depth, activeWhite, sq, 0);
    }
  }

  /** A walk yields exactly the squares it reaches: fewer than `depth` steps
      out, over empty squares only, ending on an empty square or an enemy. */
  lemma {:induction false} WalkIff(b: Grid, x: int, y: int, dx: int, dy: int, depth: nat, activeWhite: bool, sq: Square)
    requires IsDirection(dx, dy)
    ensures sq in Walk(b, x, y, dx, dy, depth, activeWhite)
        <==> exists k: nat :: WalkReaches(b, x, y, dx, dy, depth, activeWhite, sq, k)
    decreases depth
  {
    if depth == 0 || !InBounds(x, y) || b[x][y] != Empty {
      WalkStops(b, x, y, dx, dy, depth, activeWhite, sq);
    } else {
      assert Offset(x, dx, 0) == x && Offset(y, dy, 0) == y;
      var sx, sy := x + dx, y + dy;
      WalkIff(b, sx, sy, dx, dy, depth - 1, activeWhite, sq);
      if sq.row == x && sq.col == y {
        assert WalkReaches(b, x, y, dx, dy, depth, activeWhite, sq, 0);
      }
      if sq in Walk(b, sx, sy, dx, dy, depth - 1, activeWhite) {
        var k: nat :| WalkReaches(b, sx, sy, dx, dy, depth - 1, activeWhite, sq, k);
        WalkReachesBack(b, x, y, dx, dy, sx, sy, depth, activeWhite, sq, k);
      }
      forall k: nat | WalkReaches(b, x, y, dx, dy, depth, activeWhite, sq, k) && k > 0
        ensures sq in Walk(b, sx, sy, dx, dy, depth - 1, activeWhite)
      {
        WalkReachesOn(b, x, y, dx, dy, sx, sy, depth, activeWhite, sq, k - 1);
      }
    }
  }

  /** `sq` is on the walk along `ray` that starts one step from `active`. */
  predicate OnRay(b: Grid, active: Square, ray: (int, int), depth: nat, activeWhite: bool, sq: Square) {
    sq in Walk(b, active.row + ray.0, active.col + ray.1, ray.0, ray.1, depth, activeWhite)
  }

  /** The union of the walks along `rays`, each starting one step from
      `active`. */
  function SlideAlong(b: Grid, active: Square, rays: seq<(int, int)>, depth: nat, activeWhite: bool): set<Square>
  {
    if |rays| == 0 then {}
    else
      Walk(b, active.row + rays[0].0, active.col + rays[0].1, rays[0].0, rays[0].1, depth, activeWhite)
      + SlideAlong(b, active, rays[1..], depth, activeWhite)
  }

  /** A walk never yields a square of the mover's colour, and yields at
      most one square per step of its depth. */
  lemma {:induction false} WalkAvoidsOwn(b: Grid, x: int, y: int, dx: int, dy: int, depth: nat, activeWhite: bool)
    ensures forall sq :: sq in Walk(b, x, y, dx, dy, depth, activeWhite) ==>
      At(b, sq) == Empty || activeWhite != IsPieceWhite(At(b, sq))
    ensures |Walk(b, x, y, dx, dy, depth, activeWhite)| <= depth
    decreases depth
  {
    if depth > 0 && InBounds(x, y) && b[x][y] == Empty {
      WalkAvoidsOwn(b, x + dx, y + dy, dx, dy, depth - 1, activeWhite);
      var rest := Walk(b, x + dx, y + dy, dx, dy, depth - 1, activeWhite);
      assert |{Square(x, y)} + rest| <= 1 + |rest| by {
        assert {Square(x, y)} + rest == {Square(x, y)} + (rest - {Square(x, y)});
      }
    }
  }

  /** Nor does the union of walks along any rays. */
  lemma {:induction false} SlideAlongAvoidsOwn(b: Grid, active: Square, rays: seq<(int, int)>, depth: nat, activeWhite: bool)
    ensures forall sq :: sq in SlideAlong(b, active, rays, depth, activeWhite) ==>
      At(b, sq) == Empty || activeWhite != IsPieceWhite(At(b, sq))
  {
    if |rays| > 0 {
      WalkAvoidsOwn(b, active.row + rays[0].0, active.col + rays[0].1, rays[0].0, rays[0].1, depth, activeWhite);
      SlideAlongAvoidsOwn(b, active, rays[1..], depth, activeWhite);
    }
  }

  lemma RaysAreDirections(piece: char)
    ensures forall i :: 0 <= i < |RaysFor(piece)| ==> IsDirection(RaysFor(piece)[i].0, RaysFor(piece)[i].1)
  {
  }

  /** `slidingMoves` for the piece on `active`: never a square of its own
      colour. */
  function SlidingMoves(b: Grid, active: Square): (r: set<Square>)
    ensures forall sq :: sq in r ==> At(b, sq) == Empty || IsPieceWhite(At(b, sq)) != IsPieceWhite(At(b, active))
  {
    var piece := At(b, active);
    SlideAlongAvoidsOwn(b, active, RaysFor(piece), LoopDepth(piece), IsPieceWhite(piece));
    SlideAlong(b, active, RaysFor(piece), LoopDepth(piece), IsPieceWhite(piece))
  }

  lemma {:induction false} SlideAlongIff(b: Grid, active: Square, rays: seq<(int, int)>, depth: nat,
                                         activeWhite: bool, sq: Square)
    ensures sq in SlideAlong(b, active, rays, depth, activeWhite)
        <==> exists i :: 0 <= i < |rays| && OnRay(b, active, rays[i], depth, activeWhite, sq)
  {
    if |rays| > 0 {
      var rest := rays[1..];
      SlideAlongIff(b, active, rest, depth, activeWhite, sq);
      if sq in SlideAlong(b, active, rest, depth, activeWhite) {
        var i :| 0 <= i < |rest| && OnRay(b, active, rest[i], depth, activeWhite, sq);
        assert rest[i] == rays[i + 1];
      }
      if exists i :: 0 <= i < |rays| && OnRay(b, active, rays[i], depth, activeWhite, sq) {
        var i :| 0 <= i < |rays| && OnRay(b, active, rays[i], depth, activeWhite, sq);
        if i > 0 {
          assert rest[i - 1] == rays[i];
        }
      }
    }
  }

  /** The walk along step `(dx, dy)` from next to `active` reaches `sq`
      after `k` steps. */
  predicate RayReaches(b: Grid, active: Square, dx: int, dy: int, depth: nat, activeWhite: bool, sq: Square, k: nat) {
    WalkReaches(b, active.row + dx, active.col + dy, dx, dy, depth, activeWhite, sq, k)
  }

  /** One ray's walk, stated step by step. */
  lemma OnRayIff(b: Grid, active: Square, ray: (int, int), depth: nat, activeWhite: bool, sq: Square)
    requires IsDirection(ray.0, ray.1)
    ensures OnRay(b, active, ray, depth, activeWhite, sq)
        <==> exists k: nat :: RayReaches(b, active, ray.0, ray.1, depth, activeWhite, sq, k)
  {
    WalkIff(b, active.row + ray.0, active.col + ray.1, ray.0, ray.1, depth, activeWhite, sq);
    if OnRay(b, active, ray, depth, activeWhite, sq) {
      var k: nat :| WalkReaches(b, active.row + ray.0, active.col + ray.1, ray.0, ray.1, depth, activeWhite, sq, k);
      assert RayReaches(b, active, ray.0, ray.1, depth, activeWhite, sq, k);
    }
  }

  /** The union of walks along any directions, stated step by step. */
  lemma SlideAlongReaches(b: Grid, active: Square, rays: seq<(int, int)>, depth: nat, activeWhite: bool, sq: Square)
    requires forall i :: 0 <= i < |rays| ==> IsDirection(rays[i].0, rays[i].1)
    ensures sq in SlideAlong(b, active, rays, depth, activeWhite) <==>
      exists i, k: nat :: 0 <= i < |rays| && RayReaches(b, active, rays[i].0, rays[i].1, depth, activeWhite, sq, k)
  {
    SlideAlongIff(b, active, rays, depth, activeWhite, sq);
    if sq in SlideAlong(b, active, rays, depth, activeWhite) {
      var i :| 0 <= i < |rays| && OnRay(b, active, rays[i], depth, activeWhite, sq);
      OnRayIff(b, active, rays[i], depth, activeWhite, sq);
      var k: nat :| RayReaches(b, active, rays[i].0, rays[i].1, depth, activeWhite, sq, k);
    }
    if exists i, k: nat :: 0 <= i < |rays| && RayReaches(b, active, rays[i].0, rays[i].1, depth, activeWhite, sq, k) {
      var i, k: nat :| 0 <= i < |rays| && RayReaches(b, active, rays[i].0, rays[i].1, depth, activeWhite, sq, k);
      OnRayIff(b, active, rays[i], depth, activeWhite, sq);
    }
  }

  /** A rook's rays are the four orthogonal steps, a bishop's the four
      diagonal ones, and a queen's or king's all eight. */
  lemma RaysForPiece(piece: char)
    ensures ToLower(piece) == 'r' ==> forall i :: 0 <= i < |RaysFor(piece)| ==> RaysFor(piece)[i].0 == 0 || RaysFor(piece)[i].1 == 0
    ensures ToLower(piece) == 'b' ==> forall i :: 0 <= i < |RaysFor(piece)| ==> RaysFor(piece)[i].0 != 0 && RaysFor(piece)[i].1 != 0
    ensures ToLower(piece) in "qk" ==> forall dx, dy :: IsDirection(dx, dy) ==> (dx, dy) in RaysFor(piece)
    ensures |RaysFor(piece)| == (if ToLower(piece) in "qk" then 8 else 4)
  {
  }

  /** A slider's destination lies on one of its rays, fewer than
      `LoopDepth` steps out (so one step for a king), over empty squares
      only, and is empty or holds an enemy. */
  lemma SlidingMovesIff(b: Grid, active: Square, sq: Square)
    ensures var piece := At(b, active); var rays := RaysFor(piece);
      (sq in SlidingMoves(b, active) <==>
         exists i, k: nat :: 0 <= i < |rays|
           && RayReaches(b, active, rays[i].0, rays[i].1, LoopDepth(piece), IsPieceWhite(piece), sq, k))
  {
    var piece := At(b, active);
    RaysAreDirections(piece);
    SlideAlongReaches(b, active, RaysFor(piece), LoopDepth(piece), IsPieceWhite(piece), sq);
  }

  // ---------------------------------------------------------------------
  // Knights: `knightMoves`.

  /** `sq` is a knight's jump away from `active`. */
  predicate KnightJump(active: Square, sq: Square) {
    KnightApart(sq.row, sq.col, active.row, active.col)
  }

  /** `knightMoves`: every offset `(i, j)` in -2..2 with both parts non-zero
      and of different size that stays on the board, onto an empty square
      or a piece whose colour differs from the mover's. */
  function KnightMoves(b: Grid, active: Square): (r: set<Square>)
    ensures forall sq :: sq in r ==>
      && KnightJump(active, sq)
      && (At(b, sq) == Empty || IsPieceWhite(At(b, sq)) != IsPieceWhite(At(b, active)))
  {
    var activeWhite := IsPieceWhite(At(b, active));
    set i, j | -2 <= i <= 2 && -2 <= j <= 2 && i != 0 && j != 0 && Abs(i) != Abs(j)
               && InBounds(active.row + i, active.col + j)
               && (b[active.row + i][active.col + j] == Empty || activeWhite != IsPieceWhite(b[active.row + i][active.col + j]))
      :: Square(active.row + i, active.col + j)
  }

  /** A knight's destinations are exactly the squares a jump away that are
      empty or hold a piece whose colour differs from the mover's. */
  lemma KnightMovesIff(b: Grid, active: Square, sq: Square)
    ensures sq in KnightMoves(b, active)
        <==> KnightJump(active, sq) && (At(b, sq) == Empty || IsPieceWhite(At(b, sq)) != IsPieceWhite(At(b, active)))
  {
    var i, j := sq.row - active.row, sq.col - active.col;
    assert sq == Square(active.row + i, active.col + j);
  }

  /** The on-board squares at `offsets` from `active`: at most one per
      offset. */
  function Reach(active: Square, offsets: seq<(int, int)>): (r: set<Square>)
    ensures |r| <= |offsets|
  {
    if |offsets| == 0 then {}
    else
      var rest := Reach(active, offsets[1..]);
      var x, y := active.row + offsets[0].0, active.col + offsets[0].1;
      if InBounds(x, y) then {Square(x, y)} + rest else rest
  }

  /** A knight has at most eight destinations. */
  lemma KnightMovesAtMostEight(b: Grid, active: Square)
    ensures |KnightMoves(b, active)| <= 8
  {
    var moves, reach := KnightMoves(b, active), Reach(active, KnightOffsets);
    forall sq | sq in moves
      ensures sq in reach
    {
      var i, j := sq.row - active.row, sq.col - active.col;
      KnightMovesIff(b, active, sq);
      KnightOffsetsListed(i, j);
      ReachHas(active, KnightOffsets, i, j);
    }
    assert moves <= reach;
    SubsetCardinality(moves, reach);
  }

  lemma {:induction false} ReachHas(active: Square, offsets: seq<(int, int)>, i: int, j: int)
    requires (i, j) in offsets && InBounds(active.row + i, active.col + j)
    ensures Square(active.row + i, active.col + j) in Reach(active, offsets)
  {
    if offsets[0] != (i, j) {
      assert (i, j) in offsets[1..];
      ReachHas(active, offsets[1..], i, j);
    }
  }

  lemma SubsetCardinality<T>(a: set<T>, b: set<T>)
    requires a <= b
    ensures |a| <= |b|
  {
    assert b == a + (b - a);
  }

  // ---------------------------------------------------------------------
  // Pawns: `pawnMove`.

  /** The row a pawn of the given colour moves towards: up for white. */
  function Forward(white: bool): int {
    if white then -1 else 1
  }

  /** The one- and two-square pushes. The two-square push is offered from
      the home row (6 for white, 1 for black) when its landing square is
      '-'; the square in between is not looked at. */
  function Pushes(b: Grid, active: Square, white: bool): (r: set<Square>)
    requires InBounds(active.row + Forward(white), active.col)
    ensures forall sq :: sq in r <==>
      && sq.col == active.col
      && ((sq.row == active.row + Forward(white) && At(b, sq) == Empty)
          || (sq.row == active.row + 2 * Forward(white) && active.row == (if white then 6 else 1) && At(b, sq) == Empty))
  {
    var x, y, d := active.row, active.col, Forward(white);
    (if b[x + d][y] == Empty then {Square(x + d, y)} else {})
    + (if x == (if white then 6 else 1) && b[x + 2 * d][y] == Empty then {Square(x + 2 * d, y)} else {})
  }

  /** The diagonal captures: onto a non-empty square whose colour is not
      the mover's. The black pawn's capture towards the higher column also
      needs `row + 1 < 7`, so a black pawn on row 6 cannot make it. */
  function Captures(b: Grid, active: Square, white: bool): (r: set<Square>)
    requires InBounds(active.row + Forward(white), active.col)
    ensures forall sq :: sq in r <==>
      && sq.row == active.row + Forward(white)
      && (sq.col == active.col - 1 || sq.col == active.col + 1)
      && At(b, sq) != Empty && IsPieceWhite(At(b, sq)) != white
      && (!white && sq.col == active.col + 1 ==> active.row + 1 < 7)
  {
    var x, y, d := active.row, active.col, Forward(white);
    (if y - 1 >= 0 && b[x + d][y - 1] != Empty && IsPieceWhite(b[x + d][y - 1]) != white then {Square(x + d, y - 1)} else {})
    + (if (white || x + 1 < 7) && y + 1 <= 7 && b[x + d][y + 1] != Empty && IsPieceWhite(b[x + d][y + 1]) != white
       then {Square(x + d, y + 1)} else {})
  }

  /** The previous move was a two-row advance of an enemy pawn (`'p'` for a
      white mover, `'P'` for a black one) that ended level with the pawn on
      `active`; its piece is read on the board where it landed. */
  predicate DoubleStepBeside(b: Grid, active: Square, prev: Option<Move>, white: bool) {
    && prev.Some?
    && At(b, prev.value.to) == (if white then 'p' else 'P')
    && prev.value.to.row - prev.value.from.row == 2 * -Forward(white)
    && prev.value.to.row == active.row
  }

  /** En passant: the diagonal towards the column the previous move left
      from, whether or not that square is free. */
  function EnPassant(b: Grid, active: Square, prev: Option<Move>, white: bool): (r: set<Square>)
    requires InBounds(active.row + Forward(white), active.col)
    ensures forall sq :: sq in r <==>
      && DoubleStepBeside(b, active, prev, white)
      && sq.row == active.row + Forward(white)
      && sq.col == prev.value.from.col
      && (sq.col == active.col - 1 || sq.col == active.col + 1)
  {
    var x, y, d := active.row, active.col, Forward(white);
    if DoubleStepBeside(b, active, prev, white) && (prev.value.from.col == y - 1 || prev.value.from.col == y + 1)
    then {Square(x + d, prev.value.from.col)}
    else {}
  }

  /** `pawnMove`: a white pawn (any cell that upper-casing leaves alone)
      moves up the board, a black one down; on the far row it gets
      nothing. */
  function PawnMoves(b: Grid, active: Square, prev: Option<Move>): (r: set<Square>)
    ensures var white := IsPieceWhite(At(b, active));
      && (!InBounds(active.row + Forward(white), active.col) ==> r == {})
      && (InBounds(active.row + Forward(white), active.col) ==>
            r == Pushes(b, active, white) + Captures(b, active, white) + EnPassant(b, active, prev, white))
  {
    var white := IsPieceWhite(At(b, active));
    if white && active.row <= 0 then {}
    else if !white && active.row >= 7 then {}
    else Pushes(b, active, white) + Captures(b, active, white) + EnPassant(b, active, prev, white)
  }

  /** Every pawn destination is one row forward, or two rows straight
      forward from the home row. */
  lemma PawnMovesForward(b: Grid, active: Square, prev: Option<Move>, sq: Square)
    requires sq in PawnMoves(b, active, prev)
    ensures var d := Forward(IsPieceWhite(At(b, active)));
      || (sq.row == active.row + d && Abs(sq.col - active.col) <= 1)
      || (sq.row == active.row + 2 * d && sq.col == active.col)
  {
  }

  // ---------------------------------------------------------------------
  // `findValidMoves`.

  datatype ValidMovesResult = ValidMovesResult(isValidAndSafe: set<string>, enPassant: seq<int>)

  /** The generator `findValidMoves` picks by the lower-cased piece: sliders
      for k, q, r, b; `pawnMove` for p; `knightMoves` for n; nothing for
      anything else, the empty marker included. */
  function PseudoLegal(b: Grid, active: Square, prev: Option<Move>): (r: set<Square>)
    ensures ToLower(At(b, active)) !in "kqrbpn" ==> r == {}
    ensures ToLower(At(b, active)) != 'p' ==>
      forall sq :: sq in r ==> At(b, sq) == Empty || IsPieceWhite(At(b, sq)) != IsPieceWhite(At(b, active))
  {
    var t := ToLower(At(b, active));
    if t in "kqrb" then SlidingMoves(b, active)
    else if t == 'p' then PawnMoves(b, active, prev)
    else if t == 'n' then KnightMoves(b, active)
    else {}
  }

  /** The safety test applied to one key: a king's move passes when the
      destination is not attacked, and otherwise (like every other piece's
      move) when no `checkHit` walk from the mover's cached king meets an
      enemy rook, bishop or queen. With no cached king for the mover's
      colour every move passes. */
  function Safe(b: Grid, active: Square, mx: int, my: int, whiteKing: Option<Square>, blackKing: Option<Square>): (safe: bool)
    ensures var isWhite := IsPieceWhite(At(b, active));
      var king := if isWhite then whiteKing else blackKing;
      (safe <==> || (ToLower(At(b, active)) == 'k' && !IsKingCheck(b, mx, my, active))
                 || king.None?
                 || !RayStrikes(b, active, king.value.row, king.value.col, mx, my, isWhite))
  {
    PinnedIff(b, mx, my, active, whiteKing, blackKing);
    if ToLower(At(b, active)) == 'k' && !IsKingCheck(b, mx, my, active) then true
    else !IsPiecePinned(b, mx, my, active, whiteKing, blackKing)
  }

  /** Reads a key back as `findValidMoves` does and applies the test. */
  predicate SafeKey(b: Grid, active: Square, key: string, whiteKing: Option<Square>, blackKing: Option<Square>) {
    match ParseKey(key)
    case Some(m) => Safe(b, active, m.0, m.1, whiteKing, blackKing)
    case None => false
  }

  /** `findValidMoves`: the keys of the pseudo-legal destinations that pass
      the safety test. The board is only read, and the `enPassant` list it
      returns is always empty. */
  function FindValidMoves(b: Grid, active: Square, prev: Option<Move>,
                          whiteKing: Option<Square>, blackKing: Option<Square>): (r: ValidMovesResult)
    ensures r.enPassant == []
    ensures r.isValidAndSafe <= Keys(PseudoLegal(b, active, prev))
    ensures At(b, active) == Empty ==> r.isValidAndSafe == {}
  {
    var isValid := Keys(PseudoLegal(b, active, prev));
    ValidMovesResult(set s | s in isValid && SafeKey(b, active, s, whiteKing, blackKing), [])
  }

  /** A square's key is published exactly when the square is a
      pseudo-legal destination and passes the safety test; a king's move
      onto an attacked square still passes when no `checkHit` walk from
      the cached king strikes. */
  lemma FindValidMovesIff(b: Grid, active: Square, prev: Option<Move>,
                          whiteKing: Option<Square>, blackKing: Option<Square>, sq: Square)
    ensures Key(sq) in FindValidMoves(b, active, prev, whiteKing, blackKing).isValidAndSafe
        <==> && sq in PseudoLegal(b, active, prev)
             && (|| (ToLower(At(b, active)) == 'k' && !IsKingCheck(b, sq.row, sq.col, active))
                 || !IsPiecePinned(b, sq.row, sq.col, active, whiteKing, blackKing))
  {
    KeysMembership(PseudoLegal(b, active, prev), sq);
    KeyRoundTrip(sq);
  }

  /** Every published key reads back as a square among the pseudo-legal
      destinations. */
  lemma FindValidMovesKeysParse(b: Grid, active: Square, prev: Option<Move>,
                                whiteKing: Option<Square>, blackKing: Option<Square>, key: string)
    ensures key in FindValidMoves(b, active, prev, whiteKing, blackKing).isValidAndSafe ==>
      exists sq :: sq in PseudoLegal(b, active, prev) && key == Key(sq) && ParseKey(key) == Some((sq.row as int, sq.col as int))
  {
    if key in FindValidMoves(b, active, prev, whiteKing, blackKing).isValidAndSafe {
      var sq :| sq in PseudoLegal(b, active, prev) && key == Key(sq);
      KeyRoundTrip(sq);
    }
  }
}
