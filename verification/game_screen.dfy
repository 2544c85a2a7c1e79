/** `GameScreen.tsx`: its own streaming reader of the placement field and
    the touch handler of the board it renders, which moves pieces in place
    without any rule. */
module GameScreen {
  import opened Outcomes
  import opened JsText
  import opened Board
  import opened Placement
  import opened StartPosition

  /** The letters the reader writes onto the board. */
  const PieceLetters: set<char> := {'r', 'n', 'b', 'q', 'k', 'p', 'R', 'N', 'B', 'Q', 'K', 'P'}

  /** `j += 1` on a cursor that may be `NaN` (`None`). */
  function Next(j: Option<int>): Option<int> {
    match j
    case Some(f) => Some(f + 1)
    case None => None
  }

  /** The loop's variables: row `i`, file cursor `j` (`None` once it is
      `NaN`) and the board. */
  datatype Reader = Reader(i: nat, j: Option<int>, board: Grid)

  /** One pass of the reader's loop on character `c`. A letter of
      `PieceLetters` is written at `(i, j)`; a write into row eight or
      beyond throws (`None`), and a write at a file off the board (or at a
      `NaN` file) never reaches the eight rendered cells, so it is dropped.
      A `/` moves to the next row at file `-1`. Anything else moves the
      cursor by `Number(c)`, less one when `fixed`. Every character then
      moves the cursor one file on. As written (`fixed` is false) a digit
      therefore advances the cursor one file too far. */
  function Step(c: char, rd: Reader, fixed: bool): (r: Option<Reader>)
    ensures r.None? <==> c in PieceLetters && rd.i >= 8
    ensures r.Some? && c != '/' ==> r.value.i == rd.i
    ensures r.Some? && c == '/' ==> r.value == Reader(rd.i + 1, Some(0), rd.board)
    ensures c in PieceLetters && rd.i < 8 ==>
      && r.Some? && r.value.j == Next(rd.j)
      && forall sq :: At(r.value.board, sq) == if sq.row == rd.i && rd.j == Some(sq.col) then c else At(rd.board, sq)
    ensures c !in PieceLetters && c != '/' ==>
      && r.Some? && r.value.board == rd.board
      && r.value.j == if rd.j.Some? && NumberOfChar(c).Some?
                      then Some(rd.j.value + NumberOfChar(c).value + 1 - (if fixed then 1 else 0))
                      else None
  {
    if c in PieceLetters then
      if rd.i >= 8 then None
      else
        var written := match rd.j
          case Some(f) => if 0 <= f < 8 then Put(rd.board, Square(rd.i, f), c) else rd.board
          case None => rd.board;
        Some(Reader(rd.i, Next(rd.j), written))
    else if c != '/' then
      var moved := match (rd.j, NumberOfChar(c))
        case (Some(f), Some(v)) => Some(f + v - (if fixed then 1 else 0))
        case _ => None;
      Some(rd.(j := Next(moved)))
    else Some(Reader(rd.i + 1, Next(Some(-1)), rd.board))
  }

  /** The loop over the whole string. Each `/` moves one row down, and
      once the row is past the board any piece letter throws. */
  function Read(s: string, rd: Reader, fixed: bool): Option<Reader>
    decreases |s|
  {
    if |s| == 0 then Some(rd)
    else match Step(s[0], rd, fixed)
      case None => None
      case Some(next) => Read(s[1..], next, fixed)
  }

  /** The loop ends in the start row plus the number of `/`; once past the
      eighth row any piece letter throws, and text with too few `/` to leave
      the board never throws. */
  lemma {:induction false} ReadRowCount(s: string, rd: Reader, fixed: bool)
    ensures Read(s, rd, fixed).Some? ==> Read(s, rd, fixed).value.i == rd.i + multiset(s)['/']
    ensures rd.i >= 8 && (exists k :: 0 <= k < |s| && s[k] in PieceLetters) ==> Read(s, rd, fixed).None?
    ensures rd.i + multiset(s)['/'] < 8 ==> Read(s, rd, fixed).Some?
    decreases |s|
  {
    if |s| > 0 {
      assert s == [s[0]] + s[1..];
      assert forall k :: 0 < k < |s| ==> s[k] == s[1..][k - 1];
      match Step(s[0], rd, fixed)
      case None =>
      case Some(next) => ReadRowCount(s[1..], next, fixed);
    }
  }

  /** The board the loop leaves, or `None` when it throws. */
  function BoardOf(r: Option<Reader>): Option<Grid> {
    match r
    case Some(rd) => Some(rd.board)
    case None => None
  }

  /** `boardBuilder` of `GameScreen.tsx` as written. */
  function ScreenBuild(placement: string): Option<Grid> {
    BoardOf(Read(placement, Reader(0, Some(0), BlankGrid), false))
  }

  /** The same reader with a digit advancing the cursor by its value. */
  function ScreenBuildFixed(placement: string): Option<Grid> {
    BoardOf(Read(placement, Reader(0, Some(0), BlankGrid), true))
  }

  /** Both readers only throw on a piece letter past the eighth row, so a
      string with at most seven `/` always builds a board, and one with a
      piece letter after its eighth `/` never does. */
  lemma ScreenBuildThrows(placement: string, k: nat)
    ensures multiset(placement)['/'] < 8 ==> ScreenBuild(placement).Some? && ScreenBuildFixed(placement).Some?
    ensures k < |placement| && placement[k] in PieceLetters && multiset(placement[..k])['/'] >= 8 ==>
      ScreenBuild(placement).None? && ScreenBuildFixed(placement).None?
  {
    var start := Reader(0, Some(0), BlankGrid);
    ReadRowCount(placement, start, false);
    ReadRowCount(placement, start, true);
    if k < |placement| && placement[k] in PieceLetters && multiset(placement[..k])['/'] >= 8 {
      var tail := placement[k..];
      assert placement == placement[..k] + tail && tail[0] == placement[k];
      ReadAppend(placement[..k], tail, start, false);
      ReadAppend(placement[..k], tail, start, true);
      ReadRowCount(placement[..k], start, false);
      ReadRowCount(placement[..k], start, true);
      var mid, midFixed := Read(placement[..k], start, false), Read(placement[..k], start, true);
      if mid.Some? {
        ReadRowCount(tail, mid.value, false);
      }
      if midFixed.Some? {
        ReadRowCount(tail, midFixed.value, true);
      }
    }
  }

  /** Reading `a` and then `b`. */
  lemma {:induction false} ReadAppend(a: string, b: string, rd: Reader, fixed: bool)
    ensures Read(a + b, rd, fixed) == match Read(a, rd, fixed)
      case None => None
      case Some(mid) => Read(b, mid, fixed)
    decreases |a|
  {
    if |a| == 0 {
      assert a + b == b;
    } else {
      assert (a + b)[0] == a[0] && (a + b)[1..] == a[1..] + b;
      match Step(a[0], rd, fixed)
      case None =>
      case Some(next) => ReadAppend(a[1..], b, next, fixed);
    }
  }

  // ---------------------------------------------------------------------
  // The streaming reader against the row reader of `boardBuilder`.

  /** Every character of a row is a piece letter or reads as a number. */
  predicate RowChars(row: string) {
    forall k :: 0 <= k < |row| ==> row[k] in PieceLetters || IsNumeric(row[k])
  }

  /** No letter follows a numeric character within the row. */
  predicate DigitsLast(row: string) {
    forall a, b :: 0 <= a < b < |row| && IsNumeric(row[a]) ==> IsNumeric(row[b])
  }

  /** A row of numeric characters writes nothing. */
  lemma {:induction false} PlaceRowOfNumerics(row: string, file: nat, cells: seq<char>)
    requires |cells| == 8 && forall k :: 0 <= k < |row| ==> IsNumeric(row[k])
    ensures PlaceRow(row, file, cells) == cells
    decreases |row|
  {
    if |row| > 0 {
      PlaceRowOfNumerics(row[1..], file + Advance(row[0]), cells);
    }
  }

  /** Nor does the streaming reader, wherever its cursor is. */
  lemma {:induction false} ReadNumerics(row: string, rd: Reader, fixed: bool)
    requires forall k :: 0 <= k < |row| ==> IsNumeric(row[k])
    ensures Read(row, rd, fixed).Some?
    ensures Read(row, rd, fixed).value.i == rd.i && Read(row, rd, fixed).value.board == rd.board
    decreases |row|
  {
    if |row| > 0 {
      assert IsNumeric(row[0]);
      var next := Step(row[0], rd, fixed).value;
      assert next.i == rd.i && next.board == rd.board;
      assert Read(row, rd, fixed) == Read(row[1..], next, fixed);
      ReadNumerics(row[1..], next, fixed);
    }
  }

  /** The tail of a row keeps the row's character conditions. */
  lemma RowTail(row: string, fixed: bool)
    requires |row| > 0 && RowChars(row) && (fixed || DigitsLast(row))
    ensures RowChars(row[1..]) && (fixed || DigitsLast(row[1..]))
    ensures !fixed && IsNumeric(row[0]) ==> forall k :: 0 <= k < |row[1..]| ==> IsNumeric(row[1..][k])
  {
    assert forall k :: 0 <= k < |row[1..]| ==> row[1..][k] == row[k + 1];
  }

  /** Reading one row of width at most `8 - j` into row `i` writes what the
      row reader writes and stays in row `i`. As written this needs every
      numeric character of the row to come after its letters. */
  lemma {:induction false} ReadRow(row: string, i: nat, j: nat, g: Grid, fixed: bool)
    requires i < 8 && j + Width(row) <= 8 && RowChars(row)
    requires fixed || DigitsLast(row)
    ensures Read(row, Reader(i, Some(j), g), fixed).Some?
    ensures Read(row, Reader(i, Some(j), g), fixed).value.i == i
    ensures Read(row, Reader(i, Some(j), g), fixed).value.board == g[i := PlaceRow(row, j, g[i])]
    decreases |row|, 1
  {
    if |row| == 0 {
      assert g[i := PlaceRow(row, j, g[i])] == g;
    } else if IsNumeric(row[0]) {
      ReadRowNumeric(row, i, j, g, fixed);
    } else {
      ReadRowLetter(row, i, j, g, fixed);
    }
  }

  lemma {:induction false} ReadRowNumeric(row: string, i: nat, j: nat, g: Grid, fixed: bool)
    requires i < 8 && j + Width(row) <= 8 && RowChars(row)
    requires fixed || DigitsLast(row)
    requires |row| > 0 && IsNumeric(row[0])
    ensures Read(row, Reader(i, Some(j), g), fixed).Some?
    ensures Read(row, Reader(i, Some(j), g), fixed).value.i == i
    ensures Read(row, Reader(i, Some(j), g), fixed).value.board == g[i := PlaceRow(row, j, g[i])]
    decreases |row|, 0
  {
    RowTail(row, fixed);
    if fixed {
      var rd := Reader(i, Some(j), g);
      var v := NumberOfChar(row[0]).value;
      assert Step(row[0], rd, fixed) == Some(Reader(i, Some(j + v), g));
      assert Read(row, rd, fixed) == Read(row[1..], Reader(i, Some(j + v), g), fixed);
      assert PlaceRow(row, j, g[i]) == PlaceRow(row[1..], j + v, g[i]);
      ReadRow(row[1..], i, j + v, g, fixed);
    } else {
      TrailingNumerics(row, i, j, g);
    }
  }

  /** As written, a row that goes on with numerics only after its first
      numeric character writes nothing more. */
  lemma TrailingNumerics(row: string, i: nat, j: nat, g: Grid)
    requires i < 8 && |row| > 0 && IsNumeric(row[0])
    requires forall k :: 0 <= k < |row[1..]| ==> IsNumeric(row[1..][k])
    ensures Read(row, Reader(i, Some(j), g), false).Some?
    ensures Read(row, Reader(i, Some(j), g), false).value.i == i
    ensures Read(row, Reader(i, Some(j), g), false).value.board == g[i := PlaceRow(row, j, g[i])]
  {
    assert forall k :: 0 <= k < |row| ==> IsNumeric(row[k]) by {
      forall k | 0 < k < |row| ensures IsNumeric(row[k]) {
        assert row[k] == row[1..][k - 1];
      }
    }
    PlaceRowOfNumerics(row, j, g[i]);
    assert g[i := PlaceRow(row, j, g[i])] == g;
    ReadNumerics(row, Reader(i, Some(j), g), false);
  }

  lemma {:induction false} ReadRowLetter(row: string, i: nat, j: nat, g: Grid, fixed: bool)
    requires i < 8 && j + Width(row) <= 8 && RowChars(row)
    requires fixed || DigitsLast(row)
    requires |row| > 0 && !IsNumeric(row[0])
    ensures Read(row, Reader(i, Some(j), g), fixed).Some?
    ensures Read(row, Reader(i, Some(j), g), fixed).value.i == i
    ensures Read(row, Reader(i, Some(j), g), fixed).value.board == g[i := PlaceRow(row, j, g[i])]
    decreases |row|, 0
  {
    var c := row[0];
    RowTail(row, fixed);
    assert c in PieceLetters;
    assert j < 8;
    var written := Put(g, Square(i, j), c);
    ReadLetter(row, i, j, g, fixed);
    ReadRow(row[1..], i, j + 1, written, fixed);
    PlaceLetter(row, i, j, g);
  }

  /** A piece letter first in the text is written at the cursor. */
  lemma ReadLetter(row: string, i: nat, j: nat, g: Grid, fixed: bool)
    requires i < 8 && j < 8 && |row| > 0 && row[0] in PieceLetters
    ensures Read(row, Reader(i, Some(j), g), fixed)
         == Read(row[1..], Reader(i, Some(j + 1), Put(g, Square(i, j), row[0])), fixed)
  {
    assert Step(row[0], Reader(i, Some(j), g), fixed) == Some(Reader(i, Some(j + 1), Put(g, Square(i, j), row[0])));
  }

  /** Writing the row's first letter and then the rest of the row writes
      the whole row. */
  lemma PlaceLetter(row: string, i: nat, j: nat, g: Grid)
    requires i < 8 && j < 8 && |row| > 0 && !IsNumeric(row[0])
    ensures var written := Put(g, Square(i, j), row[0]);
      written[i := PlaceRow(row[1..], j + 1, written[i])] == g[i := PlaceRow(row, j, g[i])]
  {
    assert PlaceRow(row, j, g[i]) == PlaceRow(row[1..], j + 1, g[i][j := row[0]]);
  }

  /** Rows `0 .. r - 1` as `g` holds them, rows `r ..` as read. */
  function FillFrom(g: Grid, rows: seq<string>, r: nat): (f: Grid)
    requires |rows| == 8
    ensures forall k :: 0 <= k < 8 ==> f[k] == if k < r then g[k] else PlaceRow(rows[k], 0, BlankRow)
  {
    seq(8, k requires 0 <= k < 8 => if k < r then g[k] else PlaceRow(rows[k], 0, BlankRow))
  }

  /** A row the streaming reader reads as the row reader does. */
  predicate ScannableRow(row: string, fixed: bool) {
    Width(row) == 8 && RowChars(row) && (fixed || DigitsLast(row))
  }

  /** Reading a row and the `/` after it moves the reader to the start of
      the next row, with the row written. */
  lemma ReadRowAndSlash(rows: seq<string>, r: nat, g: Grid, fixed: bool)
    requires |rows| == 8 && r < 7 && ScannableRow(rows[r], fixed)
    ensures Read(Join(rows[r..], '/'), Reader(r, Some(0), g), fixed)
         == Read(Join(rows[r + 1..], '/'), Reader(r + 1, Some(0), g[r := PlaceRow(rows[r], 0, g[r])]), fixed)
  {
    var start := Reader(r, Some(0), g);
    ReadRow(rows[r], r, 0, g, fixed);
    var tail := Join(rows[r + 1..], '/');
    assert rows[r..][1..] == rows[r + 1..];
    assert Join(rows[r..], '/') == rows[r] + (['/'] + tail);
    var mid := Read(rows[r], start, fixed).value;
    ReadAppend(rows[r], ['/'] + tail, start, fixed);
    ReadAppend(['/'], tail, mid, fixed);
  }

  /** Reading the rows from `r` on, each followed by a `/` but the last. */
  lemma {:induction false} ReadRows(rows: seq<string>, r: nat, g: Grid, fixed: bool)
    requires |rows| == 8 && r < 8
    requires forall k :: r <= k < 8 ==> ScannableRow(rows[k], fixed) && g[k] == BlankRow
    ensures BoardOf(Read(Join(rows[r..], '/'), Reader(r, Some(0), g), fixed)) == Some(FillFrom(g, rows, r))
    decreases 8 - r
  {
    FillFromStep(g, rows, r);
    var g': Grid := g[r := PlaceRow(rows[r], 0, g[r])];
    if r == 7 {
      ReadRow(rows[r], r, 0, g, fixed);
      assert Join(rows[r..], '/') == rows[7];
    } else {
      ReadRowAndSlash(rows, r, g, fixed);
      ReadRows(rows, r + 1, g', fixed);
    }
  }

  /** Writing row `r` as read turns the board that holds rows `r ..` blank
      into the one that holds them from `r + 1` on. */
  lemma FillFromStep(g: Grid, rows: seq<string>, r: nat)
    requires |rows| == 8 && r < 8 && g[r] == BlankRow
    ensures IsGrid(g[r := PlaceRow(rows[r], 0, g[r])])
    ensures FillFrom(g[r := PlaceRow(rows[r], 0, g[r])], rows, r + 1) == FillFrom(g, rows, r)
    ensures r == 7 ==> g[r := PlaceRow(rows[r], 0, g[r])] == FillFrom(g, rows, r)
  {
    var g': Grid := g[r := PlaceRow(rows[r], 0, g[r])];
    assert FillFrom(g', rows, r + 1) == FillFrom(g, rows, r);
    if r == 7 {
      assert g' == FillFrom(g, rows, r);
    }
  }

  /** The rows of a placement without spaces that `boardBuilder` accepts,
      and the board it builds from them. */
  lemma AcceptedRows(placement: string)
    requires ' ' !in placement && BoardBuilder(placement).Success?
    ensures Split(placement, '/') == PlacementRows(placement)
    ensures |PlacementRows(placement)| == 8 && AllRowsFull(PlacementRows(placement))
    ensures BoardBuilder(placement).value.positions == FillRows(PlacementRows(placement))
  {
    SplitWithoutSeparator(placement, ' ');
  }

  /** On a placement `boardBuilder` accepts, made only of piece letters and
      numeric characters between the slashes, the streaming reader builds
      the same board as `boardBuilder` -- always when fixed, and as written
      when no letter follows a digit within a row. */
  lemma ScanAgrees(placement: string, fixed: bool)
    requires ' ' !in placement && BoardBuilder(placement).Success?
    requires forall k :: 0 <= k < 8 ==> RowChars(PlacementRows(placement)[k])
    requires fixed || forall k :: 0 <= k < 8 ==> DigitsLast(PlacementRows(placement)[k])
    ensures BoardOf(Read(placement, Reader(0, Some(0), BlankGrid), fixed)) == Some(BoardBuilder(placement).value.positions)
  {
    AcceptedRows(placement);
    var rows := Split(placement, '/');
    assert forall k :: 0 <= k < 8 ==> ScannableRow(rows[k], fixed) && BlankGrid[k] == BlankRow;
    JoinSplit(placement, '/');
    assert rows[0..] == rows;
    ReadRows(rows, 0, BlankGrid, fixed);
    assert FillFrom(BlankGrid, rows, 0) == FillRows(rows);
  }

  /** The corrected reader agrees with `boardBuilder` on every placement it
      accepts whose characters the streaming reader knows. */
  lemma FixedMatchesBoardBuilder(placement: string)
    requires ' ' !in placement && BoardBuilder(placement).Success?
    requires forall k :: 0 <= k < 8 ==> RowChars(PlacementRows(placement)[k])
    ensures ScreenBuildFixed(placement) == Some(BoardBuilder(placement).value.positions)
  {
    ScanAgrees(placement, true);
  }

  /** The start rows are made of piece letters, and their only digits
      are rows of their own. */
  lemma StartRowsScannable(rows: seq<string>)
    requires rows == StartRowTexts
    ensures forall k :: 0 <= k < 8 ==> RowChars(rows[k]) && DigitsLast(rows[k])
  {
    forall k | 0 <= k < 8 ensures RowChars(rows[k]) && DigitsLast(rows[k]) {
      if 2 <= k < 6 {
        assert rows[k] == "8";
      } else {
        NoDigits(rows[k]);
        assert forall c :: c in rows[k] ==> c in PieceLetters;
      }
    }
  }

  lemma NoSpaceInStart(placement: string)
    requires placement == StartPlacement
    ensures ' ' !in placement
  {
  }

  /** The start string meets both readers' conditions. */
  lemma StartScannable(placement: string)
    requires placement == StartPlacement
    ensures ' ' !in placement
    ensures BoardBuilder(placement).Success? && BoardBuilder(placement).value.positions == StartGrid
    ensures forall k :: 0 <= k < 8 ==> RowChars(PlacementRows(placement)[k]) && DigitsLast(PlacementRows(placement)[k])
  {
    StartRows(placement);
    StartLayout(placement);
    StartRowsScannable(PlacementRows(placement));
    NoSpaceInStart(placement);
  }

  /** On the fixed start string the reader as written still builds the
      standard array, because there every digit ends its row. */
  lemma ScreenBuildStart(placement: string)
    requires placement == StartPlacement
    ensures ScreenBuild(placement) == Some(StartGrid)
  {
    StartScannable(placement);
    ScanAgrees(placement, false);
  }

  /** And so does the corrected reader. */
  lemma ScreenBuildFixedStart(placement: string)
    requires placement == StartPlacement
    ensures ScreenBuildFixed(placement) == Some(StartGrid)
  {
    StartScannable(placement);
    FixedMatchesBoardBuilder(placement);
  }

  // ---------------------------------------------------------------------
  // A digit before a letter.

  /** A placement with a pawn on the fifth file of the top row. */
  const ShiftedRowTexts: seq<string> := ["4P3", "8", "8", "8", "8", "8", "8", "8"]

  lemma ShiftedText(placement: string, rows: seq<string>)
    requires placement == "4P3/8/8/8/8/8/8/8" && rows == ShiftedRowTexts
    ensures placement == rows[0] + ("/" + (rows[1] + ("/" + (rows[2] + ("/" + (rows[3] + ("/" + (rows[4] + ("/" + (rows[5]
      + ("/" + (rows[6] + ("/" + rows[7])))))))))))))
    ensures forall k :: 0 <= k < |rows| ==> '/' !in rows[k]
  {
    assert placement == "4P3" + ("/" + ("8" + ("/" + ("8" + ("/" + ("8" + ("/" + ("8" + ("/" + ("8"
      + ("/" + ("8" + ("/" + "8")))))))))))));
  }

  lemma NoSpaceInShifted(placement: string)
    requires placement == "4P3/8/8/8/8/8/8/8"
    ensures ' ' !in placement
  {
  }

  lemma ShiftedRows(placement: string)
    requires placement == "4P3/8/8/8/8/8/8/8"
    ensures ' ' !in placement
    ensures placement == Join(ShiftedRowTexts, '/')
    ensures PlacementRows(placement) == ShiftedRowTexts
  {
    var rows := ShiftedRowTexts;
    ShiftedText(placement, rows);
    JoinEight(rows, '/');
    NoSpaceInShifted(placement);
    SplitWithoutSeparator(placement, ' ');
    SplitOfJoined(placement, rows, '/');
  }

  /** An empty row. */
  lemma EightRow(row: string)
    requires row == "8"
    ensures ScannableRow(row, false) && ScannableRow(row, true)
  {
    assert row[1..] == [];
  }

  /** The top row: four empty files, a pawn, three empty files. */
  lemma PawnRow(row: string)
    requires row == "4P3"
    ensures Width(row) == 8 && RowChars(row)
    ensures !IsNumeric(row[1]) && Width(row[..1]) == 4 && row[1] == 'P'
  {
    assert NumberOfChar('4') == Some(4) && NumberOfChar('P') == None && NumberOfChar('3') == Some(3);
    assert row[..1] == "4" && row[..1][1..] == [];
    assert row[1..][1..][1..] == [];
    assert Width(row[1..][1..]) == 3;
    assert Width(row[1..]) == 4;
  }

  /** Every row of the placement is one the streaming readers know. */
  lemma ShiftedRowFacts(rows: seq<string>)
    requires rows == ShiftedRowTexts
    ensures Width(rows[0]) == 8 && RowChars(rows[0])
    ensures !IsNumeric(rows[0][1]) && Width(rows[0][..1]) == 4 && rows[0][1] == 'P'
    ensures forall k :: 1 <= k < 8 ==> ScannableRow(rows[k], false) && ScannableRow(rows[k], true)
  {
    PawnRow(rows[0]);
    forall k | 1 <= k < 8 ensures ScannableRow(rows[k], false) && ScannableRow(rows[k], true) {
      EightRow(rows[k]);
    }
  }

  /** `boardBuilder` puts the pawn on the fifth file (index 4). */
  lemma ShiftedBoardBuilder(placement: string)
    requires placement == "4P3/8/8/8/8/8/8/8"
    ensures BoardBuilder(placement).Success?
    ensures BoardBuilder(placement).value.positions[0][4] == 'P'
    ensures forall k :: 0 <= k < 8 ==> RowChars(PlacementRows(placement)[k])
  {
    ShiftedRows(placement);
    var rows := PlacementRows(placement);
    ShiftedRowFacts(rows);
    assert AllRowsFull(rows);
    BoardBuilderPlacesLetters(placement, 0, 1);
  }

  /** The reader as written reads "4P3" to a pawn on the sixth file. */
  lemma ShiftedFirstRow(row: string)
    requires row == "4P3"
    ensures Read(row, Reader(0, Some(0), BlankGrid), false)
         == Some(Reader(0, Some(10), Put(BlankGrid, Square(0, 5), 'P')))
  {
    var r0 := Reader(0, Some(0), BlankGrid);
    var r1 := Reader(0, Some(5), BlankGrid);
    var r2 := Reader(0, Some(6), Put(BlankGrid, Square(0, 5), 'P'));
    var r3 := r2.(j := Some(10));
    assert NumberOfChar('4') == Some(4) && NumberOfChar('3') == Some(3);
    assert Step(row[0], r0, false) == Some(r1);
    assert Step(row[1], r1, false) == Some(r2);
    assert Step(row[2], r2, false) == Some(r3);
    assert Read(row[1..][1..][1..], r3, false) == Some(r3);
    assert Read(row[1..][1..], r2, false) == Some(r3);
    assert Read(row[1..], r1, false) == Some(r3);
  }

  /** Once the first row is read, the other seven are read as the row
      reader reads them. */
  lemma ReadAfterFirstRow(rows: seq<string>, j: int, b1: Grid, fixed: bool)
    requires |rows| == 8
    requires Read(rows[0], Reader(0, Some(0), BlankGrid), fixed) == Some(Reader(0, Some(j), b1))
    requires forall k :: 1 <= k < 8 ==> ScannableRow(rows[k], fixed) && b1[k] == BlankRow
    ensures BoardOf(Read(Join(rows, '/'), Reader(0, Some(0), BlankGrid), fixed)) == Some(FillFrom(b1, rows, 1))
  {
    var tail := Join(rows[1..], '/');
    assert Join(rows, '/') == rows[0] + ("/" + tail);
    ReadAppend(rows[0], "/" + tail, Reader(0, Some(0), BlankGrid), fixed);
    ReadAppend("/", tail, Reader(0, Some(j), b1), fixed);
    assert Read("/", Reader(0, Some(j), b1), fixed) == Some(Reader(1, Some(0), b1));
    ReadRows(rows, 1, b1, fixed);
  }

  /** Writing one square of the blank board leaves the other rows blank. */
  lemma OtherRowsBlank(sq: Square, p: char)
    ensures forall k :: 0 <= k < 8 && k != sq.row ==> Put(BlankGrid, sq, p)[k] == BlankRow
  {
    var g := Put(BlankGrid, sq, p);
    forall k | 0 <= k < 8 && k != sq.row
      ensures g[k] == BlankRow
    {
      assert g[k] == BlankGrid[k];
    }
  }

  /** The board the reader as written builds from the shifted placement. */
  lemma ShiftedAsWrittenBoard(placement: string)
    requires placement == "4P3/8/8/8/8/8/8/8"
    ensures ScreenBuild(placement) == Some(FillFrom(Put(BlankGrid, Square(0, 5), 'P'), ShiftedRowTexts, 1))
  {
    ShiftedRows(placement);
    var rows := ShiftedRowTexts;
    ShiftedRowFacts(rows);
    var b1 := Put(BlankGrid, Square(0, 5), 'P');
    ShiftedFirstRow(rows[0]);
    OtherRowsBlank(Square(0, 5), 'P');
    ReadAfterFirstRow(rows, 10, b1, false);
  }

  /** The reader as written puts the pawn on the sixth file (index 5). */
  lemma ShiftedAsWritten(placement: string)
    requires placement == "4P3/8/8/8/8/8/8/8"
    ensures ScreenBuild(placement).Some?
    ensures ScreenBuild(placement).value[0][4] == Empty && ScreenBuild(placement).value[0][5] == 'P'
  {
    ShiftedAsWrittenBoard(placement);
    PawnOnSixthFile(ScreenBuild(placement));
  }

  lemma PawnOnSixthFile(r: Option<Grid>)
    requires r == Some(FillFrom(Put(BlankGrid, Square(0, 5), 'P'), ShiftedRowTexts, 1))
    ensures r.Some? && r.value[0][4] == Empty && r.value[0][5] == 'P'
  {
    var b1 := Put(BlankGrid, Square(0, 5), 'P');
    assert FillFrom(b1, ShiftedRowTexts, 1)[0] == b1[0];
  }

  /** The finding: with a digit before a letter in a row, the reader as
      written puts the letter one file to the right of where
      `boardBuilder` puts it. */
  lemma DigitBeforeLetterShifts(placement: string)
    requires placement == "4P3/8/8/8/8/8/8/8"
    ensures BoardBuilder(placement).Success? && BoardBuilder(placement).value.positions[0][4] == 'P'
    ensures ScreenBuild(placement).Some?
    ensures ScreenBuild(placement).value[0][4] == Empty && ScreenBuild(placement).value[0][5] == 'P'
  {
    ShiftedBoardBuilder(placement);
    ShiftedAsWritten(placement);
  }

  /** The corrected reader puts it where `boardBuilder` does. */
  lemma ShiftedFixed(placement: string)
    requires placement == "4P3/8/8/8/8/8/8/8"
    ensures ScreenBuildFixed(placement).Some? && ScreenBuildFixed(placement).value[0][4] == 'P'
  {
    ShiftedRows(placement);
    ShiftedBoardBuilder(placement);
    FixedMatchesBoardBuilder(placement);
  }

  // ---------------------------------------------------------------------
  // The touch handler of the board this screen renders
  // ---------------------------------------------------------------------

  /** The board component's state: the parent's placement array, which the
      handler writes in place, the selected square and the last destination. */
  datatype ScreenState = ScreenState(positions: Grid, active: Option<Square>, prevMove: Option<Square>)

  /** `handleTouch`: with nothing selected the touched square becomes the
      selection, whatever it holds; touching the selection again does
      nothing; touching any other square moves whatever the selection holds
      there, with no rule, turn or colour check, and clears the selection. */
  function ScreenTouch(s: ScreenState, sq: Square): (r: ScreenState)
    ensures r.active.Some? <==> s.active.None? || s.active == Some(sq)
    ensures s.active.None? ==> r.active == Some(sq)
    ensures (s.active.None? || s.active == Some(sq)) ==> r.positions == s.positions && r.prevMove == s.prevMove
    ensures s.active.Some? && s.active != Some(sq) ==>
      && At(r.positions, sq) == At(s.positions, s.active.value)
      && At(r.positions, s.active.value) == Empty
      && (forall o :: o != sq && o != s.active.value ==> At(r.positions, o) == At(s.positions, o))
      && r.prevMove == Some(sq)
  {
    match s.active
    case None => s.(active := Some(sq))
    case Some(from) =>
      if from == sq then s
      else ScreenState(Relocate(s.positions, from, sq), None, Some(sq))
  }

  /** Any two different squares touched in turn move the first square's
      content onto the second: a piece of either colour, onto a piece of
      its own colour, or an empty square that erases the destination. */
  lemma AnyTwoTouchesMove(s: ScreenState, from: Square, to: Square)
    requires s.active.None? && from != to
    ensures var r := ScreenTouch(ScreenTouch(s, from), to);
      && r.positions == Relocate(s.positions, from, to)
      && r.active.None?
      && r.prevMove == Some(to)
  {
  }

  /** Touching one square twice from no selection selects it and changes
      nothing else: the handler has no way to deselect. */
  lemma TouchSameSquareKeepsSelection(s: ScreenState, sq: Square)
    requires s.active.None?
    ensures ScreenTouch(ScreenTouch(s, sq), sq) == s.(active := Some(sq))
    ensures ScreenTouch(ScreenTouch(ScreenTouch(s, sq), sq), sq) == s.(active := Some(sq))
  {
  }

  /** A touch that moves takes exactly the piece it lands on off the board;
      every other touch leaves the material as it was. */
  lemma ScreenTouchMaterial(s: ScreenState, sq: Square, p: char)
    requires p != Empty
    ensures var r := ScreenTouch(s, sq);
      PieceCount(r.positions, p)
        + (if s.active.Some? && s.active != Some(sq) && At(s.positions, sq) == p then 1 else 0)
        == PieceCount(s.positions, p)
  {
    if s.active.Some? && s.active != Some(sq) {
      PieceCountRelocate(s.positions, s.active.value, sq, p);
    }
  }
}
