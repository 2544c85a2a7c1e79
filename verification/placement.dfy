/** `boardBuilder`: the piece-placement field of Forsyth-Edwards Notation
    (section 16.1.3.1 of the PGN Standard) read into a grid, with the squares
    of the last white and black king seen. A digit skips that many files, any
    other non-numeric character is written to the current file and advances
    it by one, and every one of the eight `/`-separated rows must add up to
    exactly eight files. */
module Placement {
  import opened Outcomes
  import opened JsText
  import opened Board

  /** The fixed position every component starts from. */
  const StartFen: string := "rnbqkbnr/pppppppp/8/8/8/8/PPPPPPPP/RNBQKBNR w KQkq - 0 1"

  const StartPlacement: string := "rnbqkbnr/pppppppp/8/8/8/8/PPPPPPPP/RNBQKBNR"

  /** The rows of `StartPlacement`. */
  const StartRowTexts: seq<string> :=
    ["rnbqkbnr", "pppppppp", "8", "8", "8", "8", "PPPPPPPP", "RNBQKBNR"]

  /** The two errors `boardBuilder` throws; `rowNumber` is the 1-based row
      its message names. */
  datatype FenError = WrongRowCount | WrongColumnCount(rowNumber: nat)

  datatype Layout = Layout(positions: Grid, whiteKing: Option<Square>, blackKing: Option<Square>)

  /** `!isNaN(Number(c))`: digits and whitespace. */
  predicate IsNumeric(c: char) {
    NumberOfChar(c).Some?
  }

  /** How far one character moves the file cursor. */
  function Advance(c: char): nat {
    match NumberOfChar(c)
    case Some(v) => v
    case None => 1
  }

  /** The file cursor after reading a whole row: its digit sum plus the
      number of non-numeric characters. */
  function Width(row: string): nat {
    if |row| == 0 then 0 else Advance(row[0]) + Width(row[1..])
  }

  /** The rows of the placement field of a FEN string. */
  function PlacementRows(fen: string): seq<string> {
    Split(Split(fen, ' ')[0], '/')
  }

  /** Reads one row into `cells`, starting at `file`. A write past the eighth
      file is dropped: it only happens in a row whose width is wrong, and the
      board is then thrown away. */
  function PlaceRow(row: string, file: nat, cells: seq<char>): (r: seq<char>)
    requires |cells| == 8
    ensures |r| == 8
  {
    if |row| == 0 then cells
    else if IsNumeric(row[0]) then PlaceRow(row[1..], file + Advance(row[0]), cells)
    else PlaceRow(row[1..], file + 1, if file < 8 then cells[file := row[0]] else cells)
  }

  /** Reading a row from `file` on never changes a cell before `file`, and
      every cell it changes receives a letter of the row. */
  lemma {:induction false} PlaceRowWrites(row: string, file: nat, cells: seq<char>)
    requires |cells| == 8
    ensures forall k :: 0 <= k < 8 && k < file ==> PlaceRow(row, file, cells)[k] == cells[k]
    ensures forall k :: 0 <= k < 8 ==> PlaceRow(row, file, cells)[k] == cells[k] || PlaceRow(row, file, cells)[k] in row
    decreases |row|
  {
    if |row| > 0 {
      var next := if IsNumeric(row[0]) then file + Advance(row[0]) else file + 1;
      var written := if !IsNumeric(row[0]) && file < 8 then cells[file := row[0]] else cells;
      PlaceRowWrites(row[1..], next, written);
      assert forall c :: c in row[1..] ==> c in row;
    }
  }

  /** The file at which the last `ch` of the row is written. */
  function LastFile(row: string, ch: char): (r: Option<nat>)
    requires !IsNumeric(ch)
    ensures r.Some? ==> r.value < Width(row)
    ensures r.None? <==> ch !in row
  {
    if |row| == 0 then None
    else match LastFile(row[1..], ch)
      case Some(f) => Some(Advance(row[0]) + f)
      case None => if row[0] == ch then Some(0) else None
  }

  /** The (row, file) at which the last `ch` of the whole placement is
      written. */
  function LastSquare(rows: seq<string>, ch: char): (r: Option<(nat, nat)>)
    requires !IsNumeric(ch)
    ensures r.Some? ==> r.value.0 < |rows| && r.value.1 < Width(rows[r.value.0])
    ensures r.None? <==> forall i :: 0 <= i < |rows| ==> ch !in rows[i]
  {
    if |rows| == 0 then None
    else match LastSquare(rows[1..], ch)
      case Some(sq) =>
        assert rows[1..][sq.0] == rows[sq.0 + 1];
        Some((sq.0 + 1, sq.1))
      case None =>
        assert forall i :: 1 <= i < |rows| ==> rows[i] == rows[1..][i - 1];
        match LastFile(rows[0], ch)
        case Some(f) => Some((0, f))
        case None => None
  }

  /** The first row, from `from` on, whose width is not eight. */
  function FirstBadRow(rows: seq<string>, from: nat): (r: Option<nat>)
    requires from <= |rows|
    ensures r.Some? ==> from <= r.value < |rows| && Width(rows[r.value]) != 8
    ensures r.Some? ==> forall i :: from <= i < r.value ==> Width(rows[i]) == 8
    ensures r.None? <==> forall i :: from <= i < |rows| ==> Width(rows[i]) == 8
    decreases |rows| - from
  {
    if from == |rows| then None
    else if Width(rows[from]) != 8 then Some(from)
    else FirstBadRow(rows, from + 1)
  }

  predicate AllRowsFull(rows: seq<string>) {
    forall i :: 0 <= i < |rows| ==> Width(rows[i]) == 8
  }

  function KingSquare(rows: seq<string>, ch: char): (r: Option<Square>)
    requires !IsNumeric(ch) && |rows| == 8 && AllRowsFull(rows)
    ensures r.Some? <==> LastSquare(rows, ch).Some?
    ensures r.Some? ==> LastSquare(rows, ch) == Some((r.value.row as nat, r.value.col as nat))
  {
    match LastSquare(rows, ch)
    case Some(sq) => Some(Square(sq.0, sq.1))
    case None => None
  }

  function FillRows(rows: seq<string>): (g: Grid)
    requires |rows| == 8
    ensures forall i :: 0 <= i < 8 ==> g[i] == PlaceRow(rows[i], 0, BlankRow)
  {
    seq(8, i requires 0 <= i < 8 => PlaceRow(rows[i], 0, BlankRow))
  }

  /** `boardBuilder(fen)`: throws unless the placement field has exactly
      eight rows, then throws at the first row whose width is not eight;
      otherwise returns the grid and the squares of the last 'K' and 'k'. */
  function BoardBuilder(fen: string): (r: Result<Layout, FenError>)
    ensures r == Failure(WrongRowCount) <==> |PlacementRows(fen)| != 8
    ensures r.Success? <==> |PlacementRows(fen)| == 8 && AllRowsFull(PlacementRows(fen))
    ensures r.Failure? && r.error.WrongColumnCount? ==>
      var rows := PlacementRows(fen);
      var n := r.error.rowNumber;
      |rows| == 8 && 1 <= n <= 8 && Width(rows[n - 1]) != 8
      && forall i :: 0 <= i < n - 1 ==> Width(rows[i]) == 8
    ensures r.Success? ==>
      && (forall i :: 0 <= i < 8 ==> r.value.positions[i] == PlaceRow(PlacementRows(fen)[i], 0, BlankRow))
      && r.value.whiteKing == KingSquare(PlacementRows(fen), 'K')
      && r.value.blackKing == KingSquare(PlacementRows(fen), 'k')
  {
    var rows := PlacementRows(fen);
    if |rows| != 8 then Failure(WrongRowCount)
    else match FirstBadRow(rows, 0)
      case Some(i) => Failure(WrongColumnCount(i + 1))
      case None => Success(Layout(FillRows(rows), KingSquare(rows, 'K'), KingSquare(rows, 'k')))
  }

  // ---------------------------------------------------------------------
  // What a successful read puts on each square.

  lemma WidthOfPrefixStep(row: string, k: nat)
    requires 0 < k <= |row|
    ensures Width(row[..k]) == Advance(row[0]) + Width(row[1..][..k - 1])
  {
    assert row[..k][1..] == row[1..][..k - 1];
  }

  /** Cells left of the cursor are never written again. */
  lemma {:induction false} PlaceRowKeepsLeft(row: string, file: nat, cells: seq<char>, c: nat)
    requires |cells| == 8 && c < file && c < 8
    ensures PlaceRow(row, file, cells)[c] == cells[c]
    decreases |row|
  {
    if |row| > 0 {
      if IsNumeric(row[0]) {
        PlaceRowKeepsLeft(row[1..], file + Advance(row[0]), cells, c);
      } else {
        PlaceRowKeepsLeft(row[1..], file + 1, if file < 8 then cells[file := row[0]] else cells, c);
      }
    }
  }

  /** Each non-numeric character sits at its running file. */
  lemma {:induction false} PlaceRowLetter(row: string, file: nat, cells: seq<char>, k: nat)
    requires |cells| == 8 && k < |row| && !IsNumeric(row[k])
    requires file + Width(row[..k]) < 8
    ensures PlaceRow(row, file, cells)[file + Width(row[..k])] == row[k]
    decreases |row|
  {
    if k == 0 {
      assert row[..0] == [];
      PlaceRowKeepsLeft(row[1..], file + 1, cells[file := row[0]], file);
    } else {
      WidthOfPrefixStep(row, k);
      var next := if IsNumeric(row[0]) || file >= 8 then cells else cells[file := row[0]];
      assert row[1..][k - 1] == row[k];
      PlaceRowLetter(row[1..], file + Advance(row[0]), next, k - 1);
    }
  }

  /** A file no character lands on keeps its old content ('-' on a fresh
      row): digits only skip squares. */
  lemma {:induction false} PlaceRowUntouched(row: string, file: nat, cells: seq<char>, c: nat)
    requires |cells| == 8 && c < 8
    requires forall k :: 0 <= k < |row| && !IsNumeric(row[k]) ==> file + Width(row[..k]) != c
    ensures PlaceRow(row, file, cells)[c] == cells[c]
    decreases |row|
  {
    if |row| > 0 {
      assert row[..0] == [];
      forall k | 0 <= k < |row[1..]| && !IsNumeric(row[1..][k])
        ensures file + Advance(row[0]) + Width(row[1..][..k]) != c
      {
        WidthOfPrefixStep(row, k + 1);
        assert row[1..][k] == row[k + 1];
      }
      var next := if IsNumeric(row[0]) || file >= 8 then cells else cells[file := row[0]];
      PlaceRowUntouched(row[1..], file + Advance(row[0]), next, c);
    }
  }

  /** On success every non-numeric character of row `r` is at
      (r, its running file), and that file is on the board. */
  lemma BoardBuilderPlacesLetters(fen: string, r: nat, k: nat)
    requires BoardBuilder(fen).Success?
    requires r < 8 && k < |PlacementRows(fen)[r]| && !IsNumeric(PlacementRows(fen)[r][k])
    ensures Width(PlacementRows(fen)[r][..k]) < 8
    ensures BoardBuilder(fen).value.positions[r][Width(PlacementRows(fen)[r][..k])] == PlacementRows(fen)[r][k]
  {
    var row := PlacementRows(fen)[r];
    WidthSplit(row, k);
    PlaceRowLetter(row, 0, BlankRow, k);
  }

  /** On success a square no character of its row lands on is empty. */
  lemma BoardBuilderLeavesGaps(fen: string, r: nat, c: nat)
    requires BoardBuilder(fen).Success?
    requires r < 8 && c < 8
    requires forall k :: 0 <= k < |PlacementRows(fen)[r]| && !IsNumeric(PlacementRows(fen)[r][k]) ==>
               Width(PlacementRows(fen)[r][..k]) != c
    ensures BoardBuilder(fen).value.positions[r][c] == Empty
  {
    PlaceRowUntouched(PlacementRows(fen)[r], 0, BlankRow, c);
  }

  /** The width of a row is the width of a prefix plus the rest; a
      non-numeric character therefore starts strictly left of the row's end. */
  lemma {:induction false} WidthSplit(row: string, k: nat)
    requires k <= |row|
    ensures Width(row) == Width(row[..k]) + Width(row[k..])
    ensures k < |row| && !IsNumeric(row[k]) ==> Width(row[..k]) < Width(row)
    decreases k
  {
    if k == 0 {
      assert row[..0] == [] && row[0..] == row;
    } else {
      WidthOfPrefixStep(row, k);
      WidthSplit(row[1..], k - 1);
      assert row[1..][k - 1..] == row[k..];
    }
    if k < |row| {
      assert row[k..][1..] == row[k + 1..];
    }
  }

  // ---------------------------------------------------------------------
  // The king squares are the last ones seen.

  /** `LastFile` names the running file of an occurrence of `ch` after which
      the row holds no other `ch`. */
  lemma {:induction false} LastFileIsLast(row: string, ch: char)
    requires !IsNumeric(ch) && LastFile(row, ch).Some?
    ensures exists k :: 0 <= k < |row| && row[k] == ch && Width(row[..k]) == LastFile(row, ch).value
                        && forall j :: k < j < |row| ==> row[j] != ch
    decreases |row|
  {
    match LastFile(row[1..], ch)
    case Some(f) =>
      LastFileIsLast(row[1..], ch);
      var k :| 0 <= k < |row[1..]| && row[1..][k] == ch && Width(row[1..][..k]) == f
               && forall j :: k < j < |row[1..]| ==> row[1..][j] != ch;
      WidthOfPrefixStep(row, k + 1);
      assert row[k + 1] == ch;
      forall j | k + 1 < j < |row| ensures row[j] != ch {
        assert row[j] == row[1..][j - 1];
      }
    case None =>
      assert row[..0] == [];
      forall j | 0 < j < |row| ensures row[j] != ch {
        assert row[j] == row[1..][j - 1];
      }
  }

  /** The king square names an occurrence of `ch` after which no row (and no
      later character of the same row) holds another `ch`. */
  lemma {:induction false} LastSquareIsLast(rows: seq<string>, ch: char)
    requires !IsNumeric(ch) && LastSquare(rows, ch).Some?
    ensures var (r, f) := LastSquare(rows, ch).value;
      && (exists k :: 0 <= k < |rows[r]| && rows[r][k] == ch && Width(rows[r][..k]) == f
                      && forall j :: k < j < |rows[r]| ==> rows[r][j] != ch)
      && forall i :: r < i < |rows| ==> ch !in rows[i]
    decreases |rows|
  {
    match LastSquare(rows[1..], ch)
    case Some(sq) =>
      LastSquareIsLast(rows[1..], ch);
      assert rows[1..][sq.0] == rows[sq.0 + 1];
      forall i | sq.0 + 1 < i < |rows| ensures ch !in rows[i] {
        assert rows[i] == rows[1..][i - 1];
      }
    case None =>
      LastFileIsLast(rows[0], ch);
      forall i | 0 < i < |rows| ensures ch !in rows[i] {
        assert rows[i] == rows[1..][i - 1];
      }
  }

  // ---------------------------------------------------------------------
  // The fixed starting position.

  lemma {:induction false} WidthOfLetters(row: string)
    requires forall k :: 0 <= k < |row| ==> !IsNumeric(row[k])
    ensures Width(row) == |row|
    decreases |row|
  {
    if |row| > 0 { WidthOfLetters(row[1..]); }
  }

  /** A row of pieces only is copied verbatim from the cursor on. */
  lemma {:induction false} PlaceRowOfLetters(row: string, file: nat, cells: seq<char>)
    requires |cells| == 8 && file + |row| <= 8
    requires forall k :: 0 <= k < |row| ==> !IsNumeric(row[k])
    ensures PlaceRow(row, file, cells) == cells[..file] + row + cells[file + |row|..]
    decreases |row|
  {
    if |row| > 0 {
      PlaceRowOfLetters(row[1..], file + 1, cells[file := row[0]]);
      assert cells[file := row[0]][..file + 1] == cells[..file] + [row[0]];
      assert [row[0]] + row[1..] == row;
    }
  }

  lemma LastFileOfLetters(row: string, ch: char, k: nat)
    requires !IsNumeric(ch) && k < |row| && row[k] == ch
    requires forall j :: 0 <= j < |row| ==> !IsNumeric(row[j])
    requires forall j :: 0 <= j < |row| && j != k ==> row[j] != ch
    ensures LastFile(row, ch) == Some(k)
  {
    LastFileIsLast(row, ch);
    var i :| 0 <= i < |row| && row[i] == ch && Width(row[..i]) == LastFile(row, ch).value
             && forall j :: i < j < |row| ==> row[j] != ch;
    WidthOfLetters(row[..i]);
  }

  lemma LetterRow(row: string)
    requires |row| == 8 && forall k :: 0 <= k < 8 ==> !IsNumeric(row[k])
    ensures Width(row) == 8 && PlaceRow(row, 0, BlankRow) == row
  {
    WidthOfLetters(row);
    PlaceRowOfLetters(row, 0, BlankRow);
  }
}
