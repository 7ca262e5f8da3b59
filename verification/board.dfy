/** The index conversion of telego/board.py (`Board._get_move_row` and
    `Board._get_move_col`), which counts columns along the full alphabet. */
module Board {
  import opened Errors
  import opened Strings
  import opened GtpEntities

  /** `_get_move_row(move)`: the digit at position 1, less one. */
  function MoveRow(m: Move): (r: Result<int>)
  {
    DigitLessOne(Value(m)[1])
  }

  /** `_get_move_col(move)`: the position of the lower-cased first character
      in `string.ascii_lowercase`. */
  function MoveCol(m: Move): (r: Result<nat>)
  {
    AlphabetIndex(Lower(Value(m)[0]))
  }

  /** `string.ascii_lowercase.index(c)`. */
  function AlphabetIndex(c: char): Result<nat> {
    match IndexOf(AsciiLowercase, c)
    case None => Raised(ValueError(SubstringNotFound))
    case Some(k) => Ok(k)
  }

  lemma LowercaseIndex(c: char)
    requires IsAsciiLower(c)
    ensures IndexOf(AsciiLowercase, c) == Some(c as int - 97)
  {
    IndexOfAt(AsciiLowercase, c, c as int - 97);
  }

  /** One row digit is read: rows 1 to 9 give 0 to 8 and rows 10 to 19 all
      give 0, exactly as `Move.row_index` does; the special moves raise. */
  lemma MoveRowSpec(m: Move)
    ensures MoveRow(m) == RowIndex(m)
    ensures m.Coord? ==> MoveRow(m) == Ok(if m.row < 10 then m.row - 1 else 0)
    ensures !m.Coord? ==> MoveRow(m).Raised?
  {
    RowIndexSpec(m);
  }

  /** The column counts `i`: a coordinate's column is its letter's place in
      the alphabet, whatever its case; `pass` and `resign` get the places of
      `p` and `r`. */
  lemma MoveColSpec(m: Move)
    ensures m.Coord? ==> IsAsciiLower(Lower(m.column)) && MoveCol(m) == Ok(Lower(m.column) as int - 97)
    ensures m == MoveToken.Pass ==> MoveCol(m) == Ok(15)
    ensures m == Resign ==> MoveCol(m) == Ok(17)
  {
    if m.Coord? {
      CoordValue(m);
      BoardColumnMembership(m.column);
    }
    LowercaseIndex(Lower(Value(m)[0]));
  }

  /** `C3` and `c3` land on the same point. */
  lemma CaseInsensitive(a: Move, b: Move)
    requires a.Coord? && b.Coord? && a.row == b.row && Lower(a.column) == Lower(b.column)
    ensures MoveRow(a) == MoveRow(b) && MoveCol(a) == MoveCol(b)
  {
    assert Value(a)[1] == Value(b)[1] by {
      CoordValue(a);
      CoordValue(b);
      assert Value(a)[1] == Value(a)[1..][0];
      assert Value(b)[1] == Value(b)[1..][0];
    }
    assert Lower(Value(a)[0]) == Lower(Value(b)[0]) by {
      CoordValue(a);
      CoordValue(b);
    }
  }

  /** Against `Move.col_index`: the same for `a`..`h`, one more for `j`..`z`,
      and for `I` an index here (8) where `col_index` raises. */
  lemma ColumnsDiverge(m: Move)
    requires m.Coord?
    ensures Lower(m.column) < 'i' ==> ColIndex(m).Ok? && MoveCol(m) == ColIndex(m)
    ensures Lower(m.column) > 'i' ==> ColIndex(m).Ok? && MoveCol(m) == Ok(ColIndex(m).value + 1)
    ensures Lower(m.column) == 'i' ==> MoveCol(m) == Ok(8) && ColIndex(m).Raised?
  {
    MoveColSpec(m);
    ColIndexSpec(m);
  }
}
