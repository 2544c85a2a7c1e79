/** The attack test of `validMoves.ts`: `checkHit` walks one ray outward and
    reports whether it meets an enemy rook, bishop or queen that can strike
    along it; `isKingCheck` and `isPiecePinned` fire eight such rays, and
    `isKingCheck` also looks for an enemy pawn or knight. All three answer
    for the position in which the piece on `active` is about to move to
    `(mx, my)`, without moving it: the ray stops at `(mx, my)` as if the
    piece already stood there. */
module Attacks {
  import opened Outcomes
  import opened JsText
  import opened Board

  /** One of the eight unit steps. */
  predicate IsDirection(dx: int, dy: int) {
    -1 <= dx <= 1 && -1 <= dy <= 1 && (dx != 0 || dy != 0)
  }

  /** The order in which `isKingCheck` and `isPiecePinned` try the rays. */
  const Directions: seq<(int, int)> := [(-1, -1), (-1, 1), (1, -1), (1, 1), (-1, 0), (1, 0), (0, -1), (0, 1)]

  const KnightOffsets: seq<(int, int)> := [(-2, -1), (-2, 1), (2, -1), (2, 1), (-1, -2), (-1, 2), (1, -2), (1, 2)]

  /** Where a pawn that attacks a white king stands, relative to it. */
  const WhiteKingPawnOffsets: seq<(int, int)> := [(-1, 1), (-1, -1)]

  /** Where a pawn that attacks a black king stands, relative to it. */
  const BlackKingPawnOffsets: seq<(int, int)> := [(1, 1), (1, -1)]

  lemma DirectionsAreDirections()
    ensures forall i :: 0 <= i < |Directions| ==> IsDirection(Directions[i].0, Directions[i].1)
  {
  }

  /** How many more steps along `d` stay on the board, from coordinate `x`. */
  function Remaining(x: int, d: int): int {
    if d > 0 then 8 - x else if d < 0 then x + 1 else 0
  }

  /** The coordinate `k` steps along `d` from `x`, for a unit step `d`. */
  function Offset(x: int, d: int, k: nat): int {
    if d > 0 then x + k else if d < 0 then x - k else x
  }

  /** The enemy pieces that strike along a ray: rook or queen on a file or
      rank (`dx * dy === 0`), bishop or queen on a diagonal. */
  predicate Strikes(piece: char, dx: int, dy: int) {
    if dx == 0 || dy == 0 then ToLower(piece) in "rq" else ToLower(piece) in "bq"
  }

  /** `checkHit`, from `(nx, ny)` on. The walk stops with false off the
      board, at `(mx, my)`, or at a square of the mover's colour that shares
      neither row nor column with `active`; the empty marker counts as a
      white piece there. It stops at the first enemy piece, with true exactly
      when that piece strikes along the ray. A square of the mover's colour
      on `active`'s row or column is walked through. */
  function CheckHit(b: Grid, active: Square, dx: int, dy: int, nx: int, ny: int,
                    mx: int, my: int, isWhite: bool): bool
    requires IsDirection(dx, dy)
    decreases Remaining(nx, dx) + Remaining(ny, dy)
  {
    if !InBounds(nx, ny) then false
    else
      var cell := b[nx][ny];
      if (nx != active.row && ny != active.col && isWhite == IsPieceWhite(cell)) || (nx == mx && ny == my) then false
      else if isWhite != IsPieceWhite(cell) then Strikes(cell, dx, dy)
      else CheckHit(b, active, dx, dy, nx + dx, ny + dy, mx, my, isWhite)
  }

  /** A square the walk goes on from. */
  predicate PassesThrough(b: Grid, active: Square, x: int, y: int, mx: int, my: int, isWhite: bool) {
    && InBounds(x, y)
    && !(x == mx && y == my)
    && isWhite == IsPieceWhite(b[x][y])
    && (x == active.row || y == active.col)
  }

  /** A square the walk stops on with true. */
  predicate StrikesFrom(b: Grid, dx: int, dy: int, x: int, y: int, mx: int, my: int, isWhite: bool) {
    && InBounds(x, y)
    && !(x == mx && y == my)
    && isWhite != IsPieceWhite(b[x][y])
    && Strikes(b[x][y], dx, dy)
  }

  /** The walk from `(nx, ny)` passes through `k` squares and then meets
      an enemy that strikes along the ray. */
  predicate StrikesAfter(b: Grid, active: Square, dx: int, dy: int, nx: int, ny: int,
                         mx: int, my: int, isWhite: bool, k: nat) {
    && StrikesFrom(b, dx, dy, Offset(nx, dx, k), Offset(ny, dy, k), mx, my, isWhite)
    && forall j: nat :: j < k ==> PassesThrough(b, active, Offset(nx, dx, j), Offset(ny, dy, j), mx, my, isWhite)
  }

  /** A strike `k` squares after the next square is `k + 1` squares after
      a square the walk passes through. */
  lemma StrikesAfterBack(b: Grid, active: Square, dx: int, dy: int, nx: int, ny: int, sx: int, sy: int,
                         mx: int, my: int, isWhite: bool, k: nat)
    requires IsDirection(dx, dy) && sx == nx + dx && sy == ny + dy
    requires PassesThrough(b, active, nx, ny, mx, my, isWhite)
    requires StrikesAfter(b, active, dx, dy, sx, sy, mx, my, isWhite, k)
    ensures StrikesAfter(b, active, dx, dy, nx, ny, mx, my, isWhite, k + 1)
  {
    assert Offset(sx, dx, k) == Offset(nx, dx, k + 1) && Offset(sy, dy, k) == Offset(ny, dy, k + 1);
    forall j: nat | j < k + 1
      ensures PassesThrough(b, active, Offset(nx, dx, j), Offset(ny, dy, j), mx, my, isWhite)
    {
      if j > 0 {
        assert Offset(nx, dx, j) == Offset(sx, dx, j - 1) && Offset(ny, dy, j) == Offset(sy, dy, j - 1);
      }
    }
  }

  /** A strike `k + 1` squares out is `k` squares after the next square. */
  lemma StrikesAfterOn(b: Grid, active: Square, dx: int, dy: int, nx: int, ny: int, sx: int, sy: int,
                       mx: int, my: int, isWhite: bool, k: nat)
    requires IsDirection(dx, dy) && sx == nx + dx && sy == ny + dy
    requires StrikesAfter(b, active, dx, dy, nx, ny, mx, my, isWhite, k + 1)
    ensures StrikesAfter(b, active, dx, dy, sx, sy, mx, my, isWhite, k)
  {
    assert Offset(sx, dx, k) == Offset(nx, dx, k + 1) && Offset(sy, dy, k) == Offset(ny, dy, k + 1);
    forall j: nat | j < k
      ensures PassesThrough(b, active, Offset(sx, dx, j), Offset(sy, dy, j), mx, my, isWhite)
    {
      assert Offset(sx, dx, j) == Offset(nx, dx, j + 1) && Offset(sy, dy, j) == Offset(ny, dy, j + 1);
    }
  }

  /** Where the walk does not go on, only the first square can strike. */
  lemma CheckHitStops(b: Grid, active: Square, dx: int, dy: int, nx: int, ny: int,
                      mx: int, my: int, isWhite: bool)
    requires IsDirection(dx, dy) && !PassesThrough(b, active, nx, ny, mx, my, isWhite)
    ensures CheckHit(b, active, dx, dy, nx, ny, mx, my, isWhite)
        <==> exists k: nat :: StrikesAfter(b, active, dx, dy, nx, ny, mx, my, isWhite, k)
  {
    assert Offset(nx, dx, 0) == nx && Offset(ny, dy, 0) == ny;
    // A strike further out would need the walk to pass through this square.
    forall k: nat | StrikesAfter(b, active, dx, dy, nx, ny, mx, my, isWhite, k)
      ensures k == 0
    {
    }
    if CheckHit(b, active, dx, dy, nx, ny, mx, my, isWhite) {
      assert StrikesAfter(b, active, dx, dy, nx, ny, mx, my, isWhite, 0);
    }
  }

  /** `CheckHitIff` at one square. */
  ghost predicate HitIsStrike(b: Grid, active: Square, dx: int, dy: int, nx: int, ny: int,
                              mx: int, my: int, isWhite: bool)
    requires IsDirection(dx, dy)
  {
    var hit := CheckHit(b, active, dx, dy, nx, ny, mx, my, isWhite);
    hit <==> exists k: nat :: StrikesAfter(b, active, dx, dy, nx, ny, mx, my, isWhite, k)
  }

  /** Through a square the walk passes, a hit further on is a strike from
      here. */
  lemma PassesHit(b: Grid, active: Square, dx: int, dy: int, nx: int, ny: int,
                  mx: int, my: int, isWhite: bool)
    requires IsDirection(dx, dy) && PassesThrough(b, active, nx, ny, mx, my, isWhite)
    requires HitIsStrike(b, active, dx, dy, nx + dx, ny + dy, mx, my, isWhite)
    requires CheckHit(b, active, dx, dy, nx, ny, mx, my, isWhite)
    ensures exists k: nat :: StrikesAfter(b, active, dx, dy, nx, ny, mx, my, isWhite, k)
  {
    var sx, sy := nx + dx, ny + dy;
    assert CheckHit(b, active, dx, dy, sx, sy, mx, my, isWhite);
    var k: nat :| StrikesAfter(b, active, dx, dy, sx, sy, mx, my, isWhite, k);
    StrikesAfterBack(b, active, dx, dy, nx, ny, sx, sy, mx, my, isWhite, k);
  }

  /** Through a square the walk passes, a strike from here is a hit further
      on. */
  lemma PassesStrike(b: Grid, active: Square, dx: int, dy: int, nx: int, ny: int,
                     mx: int, my: int, isWhite: bool, k: nat)
    requires IsDirection(dx, dy) && PassesThrough(b, active, nx, ny, mx, my, isWhite)
    requires HitIsStrike(b, active, dx, dy, nx + dx, ny + dy, mx, my, isWhite)
    requires StrikesAfter(b, active, dx, dy, nx, ny, mx, my, isWhite, k)
    ensures CheckHit(b, active, dx, dy, nx, ny, mx, my, isWhite)
  {
    assert Offset(nx, dx, 0) == nx && Offset(ny, dy, 0) == ny;
    assert k != 0;
    StrikesAfterOn(b, active, dx, dy, nx, ny, nx + dx, ny + dy, mx, my, isWhite, k - 1);
  }

  /** `checkHit` is true exactly when, some number of steps in, there is an
      enemy that strikes along the ray and the walk passes through every
      square before it. */
  lemma {:induction false} CheckHitIff(b: Grid, active: Square, dx: int, dy: int, nx: int, ny: int,
                                       mx: int, my: int, isWhite: bool)
    requires IsDirection(dx, dy)
    ensures CheckHit(b, active, dx, dy, nx, ny, mx, my, isWhite)
        <==> exists k: nat :: StrikesAfter(b, active, dx, dy, nx, ny, mx, my, isWhite, k)
    decreases Remaining(nx, dx) + Remaining(ny, dy)
  {
    if !PassesThrough(b, active, nx, ny, mx, my, isWhite) {
      CheckHitStops(b, active, dx, dy, nx, ny, mx, my, isWhite);
    } else {
      CheckHitIff(b, active, dx, dy, nx + dx, ny + dy, mx, my, isWhite);
      if CheckHit(b, active, dx, dy, nx, ny, mx, my, isWhite) {
        PassesHit(b, active, dx, dy, nx, ny, mx, my, isWhite);
      }
      forall k: nat | StrikesAfter(b, active, dx, dy, nx, ny, mx, my, isWhite, k)
        ensures CheckHit(b, active, dx, dy, nx, ny, mx, my, isWhite)
      {
        PassesStrike(b, active, dx, dy, nx, ny, mx, my, isWhite, k);
      }
    }
  }

  /** A ray fired from next to a square on the board strikes within its
      first seven squares, if at all. */
  lemma CheckHitWithinSeven(b: Grid, active: Square, dx: int, dy: int, kx: int, ky: int, nx: int, ny: int,
                            mx: int, my: int, isWhite: bool)
    requires IsDirection(dx, dy) && InBounds(kx, ky) && nx == kx + dx && ny == ky + dy
    ensures CheckHit(b, active, dx, dy, nx, ny, mx, my, isWhite)
        <==> exists k: nat :: k < 7 && StrikesAfter(b, active, dx, dy, nx, ny, mx, my, isWhite, k)
  {
    CheckHitIff(b, active, dx, dy, nx, ny, mx, my, isWhite);
  }

  /** Some of the pieces `offsets` away from `(mx, my)` is `p`. */
  predicate PieceAtOffset(b: Grid, mx: int, my: int, offsets: seq<(int, int)>, p: char) {
    exists i :: 0 <= i < |offsets| && InBounds(mx + offsets[i].0, my + offsets[i].1)
      && b[mx + offsets[i].0][my + offsets[i].1] == p
  }

  /** One of the eight rays fired from next to `(kx, ky)` strikes. */
  predicate AnyRayHits(b: Grid, active: Square, kx: int, ky: int, mx: int, my: int, isWhite: bool) {
    exists i :: 0 <= i < |Directions|
      && IsDirection(Directions[i].0, Directions[i].1)
      && CheckHit(b, active, Directions[i].0, Directions[i].1, kx + Directions[i].0, ky + Directions[i].1, mx, my, isWhite)
  }

  /** `isKingCheck`: would the king, moved from `active` to `(mx, my)`, be
      attacked there? The colour is that of the piece on `active`. */
  function IsKingCheck(b: Grid, mx: int, my: int, active: Square): bool {
    var isWhite := IsPieceWhite(At(b, active));
    var pawnOrKnight :=
      if isWhite then PieceAtOffset(b, mx, my, WhiteKingPawnOffsets, 'p') || PieceAtOffset(b, mx, my, KnightOffsets, 'n')
      else PieceAtOffset(b, mx, my, BlackKingPawnOffsets, 'P') || PieceAtOffset(b, mx, my, KnightOffsets, 'N');
    pawnOrKnight || AnyRayHits(b, active, mx, my, mx, my, isWhite)
  }

  /** `isPiecePinned`: fires the eight `checkHit` walks from the cached
      king of the colour of the piece on `active`, with `(mx, my)` as the
      probed square, on the board as it stands before the move. The king
      squares are the ones `findValidMoves` was handed (`[]` when no king
      was found, and then no walk is fired). */
  function IsPiecePinned(b: Grid, mx: int, my: int, active: Square,
                         whiteKing: Option<Square>, blackKing: Option<Square>): (pinned: bool)
    ensures IsPieceWhite(At(b, active)) && whiteKing.None? ==> !pinned
    ensures !IsPieceWhite(At(b, active)) && blackKing.None? ==> !pinned
  {
    var isWhite := IsPieceWhite(At(b, active));
    match if isWhite then whiteKing else blackKing
    case None => false
    case Some(k) => AnyRayHits(b, active, k.row, k.col, mx, my, isWhite)
  }

  function Abs(n: int): nat {
    if n < 0 then -n else n
  }

  /** `(x, y)` is a knight's jump from `(mx, my)`. */
  predicate KnightApart(x: int, y: int, mx: int, my: int) {
    var dr, dc := Abs(x - mx), Abs(y - my);
    (dr == 1 && dc == 2) || (dr == 2 && dc == 1)
  }

  /** Every offset with both parts in -2..2, non-zero and of different
      size is one of the eight listed knight offsets. */
  lemma KnightOffsetsListed(i: int, j: int)
    requires -2 <= i <= 2 && -2 <= j <= 2 && i != 0 && j != 0 && Abs(i) != Abs(j)
    ensures (i, j) in KnightOffsets
  {
  }

  /** An enemy pawn stands diagonally in front of a king of colour
      `isWhite` on `(mx, my)`: one row up for a white king (a `p`), one row
      down for a black one (a `P`). */
  predicate PawnThreat(b: Grid, mx: int, my: int, isWhite: bool) {
    var x, p := (if isWhite then mx - 1 else mx + 1), (if isWhite then 'p' else 'P');
    (InBounds(x, my - 1) && b[x][my - 1] == p) || (InBounds(x, my + 1) && b[x][my + 1] == p)
  }

  /** An enemy knight (`n` against a white king, `N` against a black one)
      stands a knight's jump from `(mx, my)`. */
  ghost predicate KnightThreat(b: Grid, mx: int, my: int, isWhite: bool) {
    exists x, y :: InBounds(x, y) && KnightApart(x, y, mx, my) && b[x][y] == (if isWhite then 'n' else 'N')
  }

  /** Along one of the eight directions from `(kx, ky)`, the walk passes
      some number of squares and then meets an enemy that strikes along
      that direction. */
  ghost predicate RayStrikes(b: Grid, active: Square, kx: int, ky: int, mx: int, my: int, isWhite: bool) {
    exists i, k: nat :: 0 <= i < |Directions| && StrikesAlong(b, active, Directions[i], kx, ky, mx, my, isWhite, k)
  }

  /** The walk along `d` that starts one step from `(kx, ky)` strikes
      after `k` squares. */
  predicate StrikesAlong(b: Grid, active: Square, d: (int, int), kx: int, ky: int, mx: int, my: int, isWhite: bool, k: nat) {
    StrikesAfter(b, active, d.0, d.1, kx + d.0, ky + d.1, mx, my, isWhite, k)
  }

  /** The eight rays of `isKingCheck` and `isPiecePinned` hit exactly when
      one of them strikes at a located enemy. */
  lemma AnyRayHitsIff(b: Grid, active: Square, kx: int, ky: int, mx: int, my: int, isWhite: bool)
    ensures AnyRayHits(b, active, kx, ky, mx, my, isWhite) <==> RayStrikes(b, active, kx, ky, mx, my, isWhite)
  {
    DirectionsAreDirections();
    forall i | 0 <= i < |Directions|
      ensures CheckHit(b, active, Directions[i].0, Directions[i].1, kx + Directions[i].0, ky + Directions[i].1, mx, my, isWhite)
          <==> exists k: nat :: StrikesAlong(b, active, Directions[i], kx, ky, mx, my, isWhite, k)
    {
      OneRayIff(b, active, Directions[i], kx, ky, mx, my, isWhite);
    }
  }

  /** One ray fired from next to `(kx, ky)` hits exactly when it strikes
      some number of squares in. */
  lemma OneRayIff(b: Grid, active: Square, d: (int, int), kx: int, ky: int, mx: int, my: int, isWhite: bool)
    requires IsDirection(d.0, d.1)
    ensures CheckHit(b, active, d.0, d.1, kx + d.0, ky + d.1, mx, my, isWhite)
        <==> exists k: nat :: StrikesAlong(b, active, d, kx, ky, mx, my, isWhite, k)
  {
    CheckHitIff(b, active, d.0, d.1, kx + d.0, ky + d.1, mx, my, isWhite);
    if CheckHit(b, active, d.0, d.1, kx + d.0, ky + d.1, mx, my, isWhite) {
      var k: nat :| StrikesAfter(b, active, d.0, d.1, kx + d.0, ky + d.1, mx, my, isWhite, k);
      assert StrikesAlong(b, active, d, kx, ky, mx, my, isWhite, k);
    }
  }

  /** The knight offsets of `isKingCheck` find `p` exactly when `p` stands
      a knight's jump away. */
  lemma KnightOffsetsIff(b: Grid, mx: int, my: int, p: char)
    ensures PieceAtOffset(b, mx, my, KnightOffsets, p)
        <==> exists x, y :: InBounds(x, y) && KnightApart(x, y, mx, my) && b[x][y] == p
  {
    if x, y :| InBounds(x, y) && KnightApart(x, y, mx, my) && b[x][y] == p {
      KnightOffsetsListed(x - mx, y - my);
      var i :| 0 <= i < |KnightOffsets| && KnightOffsets[i] == (x - mx, y - my);
      assert InBounds(mx + KnightOffsets[i].0, my + KnightOffsets[i].1);
    }
  }

  /** `isKingCheck` reports check exactly when an enemy pawn or knight
      attacks `(mx, my)`, or the `checkHit` walk along one of the eight
      rays from `(mx, my)` meets an enemy rook, bishop or queen. That walk
      is the one `CheckHit` describes, not an unblocked line in the chess
      sense. */
  lemma KingCheckIff(b: Grid, mx: int, my: int, active: Square)
    ensures var isWhite := IsPieceWhite(At(b, active));
      (IsKingCheck(b, mx, my, active)
       <==> PawnThreat(b, mx, my, isWhite) || KnightThreat(b, mx, my, isWhite) || RayStrikes(b, active, mx, my, mx, my, isWhite))
  {
    var isWhite := IsPieceWhite(At(b, active));
    AnyRayHitsIff(b, active, mx, my, mx, my, isWhite);
    KnightOffsetsIff(b, mx, my, if isWhite then 'n' else 'N');
    var x, p := (if isWhite then mx - 1 else mx + 1), (if isWhite then 'p' else 'P');
    var pawns := if isWhite then WhiteKingPawnOffsets else BlackKingPawnOffsets;
    assert PieceAtOffset(b, mx, my, pawns, p) <==> PawnThreat(b, mx, my, isWhite) by {
      if InBounds(x, my + 1) && b[x][my + 1] == p {
        assert InBounds(mx + pawns[0].0, my + pawns[0].1);
      }
      if InBounds(x, my - 1) && b[x][my - 1] == p {
        assert InBounds(mx + pawns[1].0, my + pawns[1].1);
      }
    }
  }

  /** `isPiecePinned` reports a pin exactly when the mover's colour has a
      cached king and the `checkHit` walk along one of the eight rays from
      that king meets an enemy rook, bishop or queen. */
  lemma PinnedIff(b: Grid, mx: int, my: int, active: Square, whiteKing: Option<Square>, blackKing: Option<Square>)
    ensures var isWhite := IsPieceWhite(At(b, active));
      var king := if isWhite then whiteKing else blackKing;
      (IsPiecePinned(b, mx, my, active, whiteKing, blackKing)
       <==> king.Some? && RayStrikes(b, active, king.value.row, king.value.col, mx, my, isWhite))
  {
    var isWhite := IsPieceWhite(At(b, active));
    var king := if isWhite then whiteKing else blackKing;
    if king.Some? {
      AnyRayHitsIff(b, active, king.value.row, king.value.col, mx, my, isWhite);
    }
  }
  /** The pin test reads the board before the move and stops at any
      square of the mover's colour off the moving piece's row and column,
      the empty marker included. A white bishop on (6,6) between its king
      on (7,7) and a black queen on (4,4) may step to (5,7): the walk from
      the king passes the bishop on its own row and stops at the empty
      (5,5). */
  lemma PinWalkStopsAtEmpty(b: Grid)
    requires b == [BlankRow, BlankRow, BlankRow, BlankRow, "----q---", BlankRow, "------B-", "-------K"]
    ensures At(b, Square(4, 4)) == 'q' && At(b, Square(6, 6)) == 'B' && At(b, Square(7, 7)) == 'K'
    ensures !IsPiecePinned(b, 5, 7, Square(6, 6), Some(Square(7, 7)), None)
  {
  }
}
