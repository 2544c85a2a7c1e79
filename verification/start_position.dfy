/** The fixed start string and what `boardBuilder` makes of it: the
    standard array with both kings on their home squares. The lemmas take
    the literal as a parameter they are told it equals, which keeps the
    verifier from evaluating the recursive readers on it eagerly. */
module StartPosition {
  import opened Outcomes
  import opened JsText
  import opened Board
  import opened Placement

  /** The six space-separated fields of the start string. */
  const StartFieldTexts: seq<string> := [StartPlacement, "w", "KQkq", "-", "0", "1"]

  lemma JoinSix(parts: seq<string>, sep: char)
    requires |parts| == 6
    ensures Join(parts, sep)
      == parts[0] + ([sep] + (parts[1] + ([sep] + (parts[2] + ([sep] + (parts[3] + ([sep] + (parts[4] + ([sep] + parts[5])))))))))
  {
    assert Join(parts[5..], sep) == parts[5];
    assert Join(parts[4..], sep) == parts[4] + ([sep] + parts[5]);
    assert Join(parts[3..], sep) == parts[3] + ([sep] + (parts[4] + ([sep] + parts[5])));
    assert Join(parts[2..], sep) == parts[2] + ([sep] + (parts[3] + ([sep] + (parts[4] + ([sep] + parts[5])))));
    assert Join(parts[1..], sep)
      == parts[1] + ([sep] + (parts[2] + ([sep] + (parts[3] + ([sep] + (parts[4] + ([sep] + parts[5])))))));
  }

  lemma JoinEight(parts: seq<string>, sep: char)
    requires |parts| == 8
    ensures Join(parts, sep)
      == parts[0] + ([sep] + (parts[1] + ([sep] + (parts[2] + ([sep] + (parts[3] + ([sep] + (parts[4]
         + ([sep] + (parts[5] + ([sep] + (parts[6] + ([sep] + parts[7])))))))))))))
  {
    assert Join(parts[7..], sep) == parts[7];
    assert Join(parts[6..], sep) == parts[6] + ([sep] + parts[7]);
    assert Join(parts[5..], sep) == parts[5] + ([sep] + (parts[6] + ([sep] + parts[7])));
    assert Join(parts[4..], sep) == parts[4] + ([sep] + (parts[5] + ([sep] + (parts[6] + ([sep] + parts[7])))));
    assert Join(parts[3..], sep)
      == parts[3] + ([sep] + (parts[4] + ([sep] + (parts[5] + ([sep] + (parts[6] + ([sep] + parts[7])))))));
    assert Join(parts[2..], sep)
      == parts[2] + ([sep] + (parts[3] + ([sep] + (parts[4] + ([sep] + (parts[5] + ([sep] + (parts[6]
         + ([sep] + parts[7])))))))));
    assert Join(parts[1..], sep)
      == parts[1] + ([sep] + (parts[2] + ([sep] + (parts[3] + ([sep] + (parts[4] + ([sep] + (parts[5]
         + ([sep] + (parts[6] + ([sep] + parts[7])))))))))));
  }

  lemma FenText(fen: string, fields: seq<string>)
    requires fen == StartFen && fields == StartFieldTexts
    ensures fen == fields[0] + ([' '] + (fields[1] + ([' '] + (fields[2] + ([' '] + (fields[3] + ([' '] + (fields[4]
      + ([' '] + fields[5])))))))))
    ensures forall i :: 0 <= i < |fields| ==> ' ' !in fields[i]
  {
  }

  lemma PlacementText(s: string, rows: seq<string>)
    requires s == StartPlacement && rows == StartRowTexts
    ensures s == rows[0] + ("/" + (rows[1] + ("/" + (rows[2] + ("/" + (rows[3] + ("/" + (rows[4] + ("/" + (rows[5]
      + ("/" + (rows[6] + ("/" + rows[7])))))))))))))
  {
    assert s == "rnbqkbnr" + ("/" + ("pppppppp" + ("/" + ("8" + ("/" + ("8" + ("/" + ("8" + ("/" + ("8"
      + ("/" + ("PPPPPPPP" + ("/" + "RNBQKBNR")))))))))))));
  }

  lemma RowsWithoutSlash(rows: seq<string>)
    requires rows == StartRowTexts
    ensures forall i :: 0 <= i < |rows| ==> '/' !in rows[i]
  {
  }

  /** The start string splits on spaces into its six fields. */
  lemma StartFields(fen: string)
    requires fen == StartFen
    ensures Split(fen, ' ') == StartFieldTexts
  {
    var fields := StartFieldTexts;
    FenText(fen, fields);
    JoinSix(fields, ' ');
    SplitOfJoined(fen, fields, ' ');
  }

  /** The placement text splits on '/' into the eight row texts. */
  lemma StartPlacementRows(s: string)
    requires s == StartPlacement
    ensures Split(s, '/') == StartRowTexts
  {
    var rows := StartRowTexts;
    PlacementText(s, rows);
    RowsWithoutSlash(rows);
    JoinEight(rows, '/');
    SplitOfJoined(s, rows, '/');
  }

  /** The placement field of the start string, or the placement text on its
      own, splits on '/' into the eight row texts. */
  lemma StartRows(fen: string)
    requires fen == StartFen || fen == StartPlacement
    ensures PlacementRows(fen) == StartRowTexts
  {
    if fen == StartFen {
      StartFields(fen);
    } else {
      PlacementOnly(fen);
    }
    StartPlacementRows(Split(fen, ' ')[0]);
  }

  /** The placement text has no space, so it is its own first field. */
  lemma PlacementOnly(s: string)
    requires s == StartPlacement
    ensures Split(s, ' ') == [s]
  {
    assert ' ' !in s;
    SplitWithoutSeparator(s, ' ');
  }

  lemma NoDigits(row: string)
    requires row == "rnbqkbnr" || row == "pppppppp" || row == "PPPPPPPP" || row == "RNBQKBNR"
    ensures |row| == 8 && forall k :: 0 <= k < 8 ==> !IsNumeric(row[k])
  {
  }

  lemma EmptyRow(row: string)
    requires row == "8"
    ensures Width(row) == 8 && PlaceRow(row, 0, BlankRow) == BlankRow
  {
    assert row[1..] == [];
  }

  /** Every start row has width eight and is read into the matching row of
      the standard array. */
  lemma StartRowsFill(rows: seq<string>)
    requires rows == StartRowTexts
    ensures AllRowsFull(rows)
    ensures FillRows(rows) == StartGrid
  {
    forall i | 0 <= i < 8
      ensures Width(rows[i]) == 8 && PlaceRow(rows[i], 0, BlankRow) == StartGrid[i]
    {
      if 2 <= i < 6 {
        EmptyRow(rows[i]);
      } else {
        NoDigits(rows[i]);
        LetterRow(rows[i]);
      }
    }
    assert FillRows(rows) == StartGrid;
  }

  lemma StartWhiteKing(rows: seq<string>)
    requires rows == StartRowTexts
    ensures LastSquare(rows, 'K') == Some((7, 4))
  {
    NoDigits(rows[7]);
    LastFileOfLetters(rows[7], 'K', 4);
    assert LastSquare(rows[7..], 'K') == Some((0, 4));
  }

  lemma NoBlackKingBelowTop(rows: seq<string>)
    requires rows == StartRowTexts[1..]
    ensures LastSquare(rows, 'k') == None
  {
    assert 'k' !in rows[0];
    assert 'k' !in rows[1];
    assert 'k' !in rows[5];
    assert 'k' !in rows[6];
  }

  lemma StartBlackKing(rows: seq<string>)
    requires rows == StartRowTexts
    ensures LastSquare(rows, 'k') == Some((0, 4))
  {
    NoDigits(rows[0]);
    LastFileOfLetters(rows[0], 'k', 4);
    NoBlackKingBelowTop(rows[1..]);
  }

  /** `boardBuilder` on the fixed start string yields the standard array with
      the white king on (7,4) and the black king on (0,4). */
  lemma StartLayout(fen: string)
    requires fen == StartFen || fen == StartPlacement
    ensures BoardBuilder(fen) == Success(Layout(StartGrid, Some(Square(7, 4)), Some(Square(0, 4))))
  {
    StartRows(fen);
    var rows := PlacementRows(fen);
    StartRowsFill(rows);
    StartWhiteKing(rows);
    StartBlackKing(rows);
  }
}
