/** The 8x8 board of single-character cells shared by every part of the app:
    upper case is white, lower case is black, '-' is an empty square. Row 0 is
    black's back rank. */
module Board {
  import opened Outcomes
  import opened JsText

  type Coord = x: int | 0 <= x < 8

  datatype Square = Square(row: Coord, col: Coord)

  /** A move from one square to another; the `prevMove` pair of the source. */
  datatype Move = Move(from: Square, to: Square)

  const Empty: char := '-'

  const BlankRow: string := "--------"

  predicate IsGrid(b: seq<seq<char>>) {
    |b| == 8 && forall r :: 0 <= r < 8 ==> |b[r]| == 8
  }

  type Grid = b: seq<seq<char>> | IsGrid(b)
    witness [BlankRow, BlankRow, BlankRow, BlankRow, BlankRow, BlankRow, BlankRow, BlankRow]

  const BlankGrid: Grid := [BlankRow, BlankRow, BlankRow, BlankRow, BlankRow, BlankRow, BlankRow, BlankRow]

  /** The standard initial array, as the fixed starting FEN describes it. */
  const StartGrid: Grid := [
    "rnbqkbnr", "pppppppp", BlankRow, BlankRow, BlankRow, BlankRow, "PPPPPPPP", "RNBQKBNR"]

  predicate InBounds(x: int, y: int) {
    0 <= x < 8 && 0 <= y < 8
  }

  function At(b: Grid, sq: Square): char {
    b[sq.row][sq.col]
  }

  /** Writes one cell. */
  function Put(b: Grid, sq: Square, p: char): (r: Grid)
    ensures At(r, sq) == p
    ensures forall s :: s != sq ==> At(r, s) == At(b, s)
  {
    b[sq.row := b[sq.row][sq.col := p]]
  }

  /** The move every board component performs: the destination receives the
      origin's piece, then the origin is emptied (in that order, so a move
      onto the origin itself leaves it empty). */
  function Relocate(b: Grid, from: Square, to: Square): (r: Grid)
    ensures from != to ==> At(r, to) == At(b, from)
    ensures At(r, from) == Empty
    ensures forall s :: s != from && s != to ==> At(r, s) == At(b, s)
  {
    Put(Put(b, to, At(b, from)), from, Empty)
  }

  /** `isPieceWhite`: a cell is "white" when upper-casing leaves it unchanged,
      which holds for every upper-case letter and also for the empty marker. */
  function IsPieceWhite(p: char): (white: bool)
    ensures white <==> !IsAsciiLower(p)
    ensures p in "KQRBNP" ==> white
    ensures p in "kqrbnp" ==> !white
    ensures p == Empty ==> white
  {
    ToUpper(p) == p
  }

  /** The string key `"row col"` under which a destination is stored in the
      valid-move sets. */
  function Key(sq: Square): string {
    [DigitChar(sq.row), ' ', DigitChar(sq.col)]
  }

  /** How `findValidMoves` reads a key back: `split(' ')`, then `parseInt` of
      each half (a missing half is `undefined`, which parses to NaN). */
  function ParseKey(s: string): Option<(int, int)> {
    var parts := Split(s, ' ');
    var x := ParseInt(parts[0]);
    var y := if |parts| > 1 then ParseInt(parts[1]) else None;
    if x.Some? && y.Some? then Some((x.value, y.value)) else None
  }

  lemma KeyRoundTrip(sq: Square)
    ensures ParseKey(Key(sq)) == Some((sq.row as int, sq.col as int))
  {
    var r, c := DigitChar(sq.row), DigitChar(sq.col);
    assert Key(sq) == [r] + [' '] + [c];
    SplitWithoutSeparator([c], ' ');
    SplitAtFirstSeparator([r], ' ', [c]);
    ParseIntOfDigit(r);
    ParseIntOfDigit(c);
  }

  lemma KeyInjective(a: Square, b: Square)
    ensures Key(a) == Key(b) <==> a == b
  {
    if Key(a) == Key(b) {
      KeyRoundTrip(a);
      KeyRoundTrip(b);
    }
  }

  function Keys(squares: set<Square>): set<string> {
    set sq | sq in squares :: Key(sq)
  }

  lemma KeysMembership(squares: set<Square>, sq: Square)
    ensures Key(sq) in Keys(squares) <==> sq in squares
  {
    if Key(sq) in Keys(squares) {
      var t :| t in squares && Key(t) == Key(sq);
      KeyInjective(t, sq);
    }
  }

  /** How many cells of the board hold `p`. */
  function PieceCount(b: seq<seq<char>>, p: char): nat
    decreases |b|
  {
    if |b| == 0 then 0 else multiset(b[0])[p] + PieceCount(b[1..], p)
  }

  /** Replacing one row changes the count by that row's difference. */
  lemma {:induction false} PieceCountRowUpdate(b: seq<seq<char>>, r: nat, row: seq<char>, p: char)
    requires r < |b|
    ensures PieceCount(b[r := row], p) + multiset(b[r])[p] == PieceCount(b, p) + multiset(row)[p]
    decreases |b|
  {
    if r == 0 {
      assert b[r := row][1..] == b[1..];
    } else {
      PieceCountRowUpdate(b[1..], r - 1, row, p);
      assert b[r := row][1..] == b[1..][r - 1 := row];
    }
  }

  /** Writing one cell removes what was there and adds what is written. */
  lemma PieceCountPut(b: Grid, sq: Square, q: char, p: char)
    ensures PieceCount(Put(b, sq, q), p) + (if At(b, sq) == p then 1 else 0)
         == PieceCount(b, p) + (if q == p then 1 else 0)
  {
    var row := b[sq.row];
    PieceCountRowUpdate(b, sq.row, row[sq.col := q], p);
    assert multiset(row[sq.col := q]) == multiset(row)[row[sq.col] := multiset(row)[row[sq.col]] - 1][q := multiset(row)[q] + (if q == row[sq.col] then 0 else 1)];
  }

  /** A move takes the captured piece off the board and nothing else. */
  lemma PieceCountRelocate(b: Grid, from: Square, to: Square, p: char)
    requires p != Empty
    ensures PieceCount(Relocate(b, from, to), p) + (if At(b, to) == p then 1 else 0) == PieceCount(b, p)
  {
    var moved := Put(b, to, At(b, from));
    PieceCountPut(b, to, At(b, from), p);
    PieceCountPut(moved, from, Empty, p);
  }
}
