/** The Go Text Protocol entities of telego/gtp/entities.py: the column
    alphabet, the `Move` value table with `is_valid`, `row_index` and
    `col_index`, and `StoneColor` with its aliases. */
module GtpEntities {
  import opened Errors
  import opened Strings

  // ---------------------------------------------------------------------
  // Column letters

  /** The `n` consecutive characters from code point `first` on. */
  function CharRange(first: nat, n: nat): (r: string)
    requires first + n <= 0xD800
    ensures |r| == n
    ensures forall k :: 0 <= k < n ==> r[k] == (first + k) as char
  {
    if n == 0 then [] else CharRange(first, n - 1) + [(first + n - 1) as char]
  }

  /** `string.ascii_lowercase`. */
  const AsciiLowercase: string := CharRange(97, 26)

  /** `string.ascii_uppercase`. */
  const AsciiUppercase: string := CharRange(65, 26)

  /** `string.ascii_letters`. */
  const AsciiLetters: string := AsciiLowercase + AsciiUppercase

  /** `board_columns`: the letters with lower-case `i` taken out; upper-case
      `I` stays. */
  const BoardColumns: string := RemoveAll(AsciiLetters, 'i')

  lemma LowercaseMembership(c: char)
    ensures c in AsciiLowercase <==> IsAsciiLower(c)
  {
    if IsAsciiLower(c) {
      assert AsciiLowercase[c as int - 97] == c;
    }
  }

  lemma UppercaseMembership(c: char)
    ensures c in AsciiUppercase <==> IsAsciiUpper(c)
  {
    if IsAsciiUpper(c) {
      assert AsciiUppercase[c as int - 65] == c;
    }
  }

  /** Taking out the one occurrence of a character. */
  lemma RemoveSingle(a: string, ch: char, b: string)
    requires ch !in a && ch !in b
    ensures RemoveAll(a + [ch] + b, ch) == a + b
  {
    assert RemoveAll([ch], ch) == [] by {
      assert [ch][1..] == [];
    }
    assert RemoveAll(a + [ch], ch) == a by {
      RemoveAllAppend(a, [ch], ch);
      RemoveAllAbsent(a, ch);
      assert a + [] == a;
    }
    assert RemoveAll(b, ch) == b by {
      RemoveAllAbsent(b, ch);
    }
    RemoveAllAppend(a + [ch], b, ch);
  }

  /** The column alphabet is `a`..`h`, then `j`..`z`, then `A`..`Z`. */
  lemma BoardColumnsLayout()
    ensures BoardColumns == AsciiLowercase[..8] + AsciiLowercase[9..] + AsciiUppercase
    ensures |BoardColumns| == 51
  {
    LowercaseAroundI();
    UppercaseMembership('i');
    RemoveI(AsciiLowercase, AsciiUppercase);
  }

  /** Taking `i` out of `lower + upper` when it sits at index 8 of `lower`. */
  lemma RemoveI(lower: string, upper: string)
    requires |lower| > 8 && lower == lower[..8] + ['i'] + lower[9..]
    requires 'i' !in lower[..8] && 'i' !in lower[9..] && 'i' !in upper
    ensures RemoveAll(lower + upper, 'i') == lower[..8] + lower[9..] + upper
  {
    var lo, hi := lower[..8], lower[9..];
    assert lower + upper == lo + ['i'] + (hi + upper);
    RemoveSingle(lo, 'i', hi + upper);
    assert lo + (hi + upper) == lo + hi + upper;
  }

  /** `i` sits at index 8 of the lower-case alphabet, and only there. */
  lemma LowercaseAroundI()
    ensures var lo, hi := AsciiLowercase[..8], AsciiLowercase[9..];
      AsciiLowercase == lo + ['i'] + hi && 'i' !in lo && 'i' !in hi
  {
    var lo, hi := AsciiLowercase[..8], AsciiLowercase[9..];
    assert AsciiLowercase[8] == 'i';
    assert AsciiLowercase == lo + [AsciiLowercase[8]] + hi;
    forall j | 0 <= j < |lo| ensures lo[j] != 'i' {
      assert lo[j] == (97 + j) as char;
    }
    forall j | 0 <= j < |hi| ensures hi[j] != 'i' {
      assert hi[j] == (106 + j) as char;
    }
  }

  /** A character is a column letter exactly when it is an ASCII letter other
      than lower-case `i`. */
  lemma BoardColumnMembership(c: char)
    ensures c in BoardColumns <==> (IsAsciiLower(c) && c != 'i') || IsAsciiUpper(c)
  {
    LowercaseMembership(c);
    UppercaseMembership(c);
  }

  /** The position of a lower-case letter other than `i` in `board_columns`:
      `i` is skipped, so letters after it sit one place earlier. */
  function ColumnPosition(c: char): (k: nat)
    requires IsAsciiLower(c) && c != 'i'
    ensures k < 25
  {
    if c < 'i' then c as int - 97 else c as int - 98
  }

  /** The first 25 column letters are the lower-case ones, `i` skipped. */
  lemma BoardColumnAt(j: nat)
    requires j < 25
    ensures |BoardColumns| == 51
    ensures BoardColumns[j] == (if j < 8 then 97 + j else 98 + j) as char
  {
    BoardColumnsLayout();
    if j < 8 {
      assert BoardColumns[j] == AsciiLowercase[j];
    } else {
      assert BoardColumns[j] == AsciiLowercase[9..][j - 8] == AsciiLowercase[j + 1];
    }
  }

  /** `board_columns.index(c)` for a lower-case letter. */
  lemma BoardColumnIndex(c: char)
    requires IsAsciiLower(c)
    ensures c == 'i' ==> IndexOf(BoardColumns, c).None?
    ensures c != 'i' ==> IndexOf(BoardColumns, c) == Some(ColumnPosition(c))
  {
    if c != 'i' {
      var k := ColumnPosition(c);
      BoardColumnAt(k);
      forall j | 0 <= j < k
        ensures BoardColumns[j] != c
      {
        BoardColumnAt(j);
      }
      IndexOfAt(BoardColumns, c, k);
    } else {
      BoardColumnMembership(c);
    }
  }

  // ---------------------------------------------------------------------
  // Moves

  /** The members of the `Move` enumeration: a coordinate, or one of the
      two special moves. */
  datatype MoveToken = Coord(column: char, row: int) | Pass | Resign

  /** The coordinates in the table: a column letter and a row from 1 to 19. */
  predicate InMoveTable(t: MoveToken) {
    t.Coord? ==> t.column in BoardColumns && 1 <= t.row <= 19
  }

  type Move = t: MoveToken | InMoveTable(t) witness Pass

  /** `move.value`. */
  function Value(m: Move): string {
    match m
    case Coord(c, r) => [c] + NatToString(r)
    case Pass => "pass"
    case Resign => "resign"
  }

  /** A coordinate's value: its column letter, then `str(row)`, which `int`
      reads back; it is neither special value. */
  lemma CoordValue(m: Move)
    requires m.Coord?
    ensures |Value(m)| >= 2 && Value(m)[0] == m.column && Value(m)[1..] == NatToString(m.row)
    ensures IsDigit(Value(m)[1]) && Value(m) != "pass" && Value(m) != "resign"
    ensures ParseInt(Value(m)[1..]) == Ok(m.row)
  {
    var v := Value(m);
    assert v[1..] == NatToString(m.row);
    assert v[1] == v[1..][0];
    NatToStringRoundTrip(m.row);
  }

  /** The row part of a coordinate value: `str(n)` for some `n` from 1 to 19. */
  predicate RowText(t: string) {
    |t| > 0 && AllDigits(t) && t[0] != '0' && DigitsValue(t) <= 19
  }

  /** `Move(s)`: lookup by value. The names `PASS` and `RESIGN` are not
      values, so only the lower-case spellings of the special moves are
      found. */
  function MoveOf(s: string): (r: Result<Move>)
    ensures r.Raised? ==> r.exc == ValueError(NotAValid(s, "Move"))
  {
    if s == "pass" then Ok(Pass)
    else if s == "resign" then Ok(Resign)
    else if |s| >= 2 && s[0] in BoardColumns && RowText(s[1..]) then
      LeadingNonZero(s[1..]);
      Ok(Coord(s[0], DigitsValue(s[1..])))
    else Raised(ValueError(NotAValid(s, "Move")))
  }

  /** The message of the `ValueError` raised by an enumeration lookup. */
  function NotAValid(s: string, enum: string): string {
    "'" + s + "' is not a valid " + enum
  }

  /** An argument of `Move(...)`: a member is returned as it is. */
  datatype MoveArg = MoveMember(move: Move) | MoveText(text: string)

  function MoveOfArg(arg: MoveArg): (r: Result<Move>)
    ensures arg.MoveMember? ==> r == Ok(arg.move)
    ensures arg.MoveText? ==> r == MoveOf(arg.text)
  {
    match arg
    case MoveMember(m) => Ok(m)
    case MoveText(s) => MoveOf(s)
  }

  /** Lookup by value finds exactly the member with that value. */
  lemma MoveOfValue(s: string, m: Move)
    ensures MoveOf(s) == Ok(m) <==> Value(m) == s
  {
    if MoveOf(s) == Ok(m) && m.Coord? {
      MoveOfSound(s);
    }
    if Value(m) == s && m.Coord? {
      CoordValue(m);
      assert RowText(s[1..]);
    }
  }

  lemma MoveOfSound(s: string)
    requires MoveOf(s).Ok? && MoveOf(s).value.Coord?
    ensures Value(MoveOf(s).value) == s
  {
    var t := s[1..];
    var m := MoveOf(s).value;
    assert RowText(t) && m.column == s[0] && m.row == DigitsValue(t);
    CanonicalRoundTrip(t);
    assert Value(m) == [s[0]] + t;
  }

  /** Every string that is not the value of a member is refused. */
  lemma MoveOfRefuses(s: string)
    requires forall m: Move :: Value(m) != s
    ensures MoveOf(s) == Raised(ValueError(NotAValid(s, "Move")))
  {
    if MoveOf(s).Ok? {
      MoveOfValue(s, MoveOf(s).value);
    }
  }

  /** The table: a column letter (upper-case `I` included, lower-case `i`
      not) followed by a row from 1 to 19. */
  lemma MoveTable(c: char, r: nat)
    ensures MoveOf([c] + NatToString(r)).Ok? <==>
      ((IsAsciiLower(c) && c != 'i') || IsAsciiUpper(c)) && 1 <= r <= 19
  {
    BoardColumnMembership(c);
    var s := [c] + NatToString(r);
    NatToStringRoundTrip(r);
    assert s[1..] == NatToString(r) && s[0] == c;
    assert s != "pass" && s != "resign" by {
      assert IsDigit(s[1]);
    }
  }

  /** The special moves are found by their lower-case values only; the
      upper-case spellings are names, not values. */
  lemma SpecialMoves()
    ensures MoveOf("pass") == Ok(MoveToken.Pass) && MoveOf("resign") == Ok(Resign)
    ensures MoveOf("PASS").Raised? && MoveOf("RESIGN").Raised?
  {
    assert !IsDigit("PASS"[1..][0]);
    assert !IsDigit("RESIGN"[1..][0]);
  }

  /** The column's number counted from 1 along `board_columns`. */
  function ColumnNumber(c: char): (n: int)
    requires IsAsciiLower(c) && c != 'i'
  {
    ColumnPosition(c) + 1
  }

  /** `move.is_valid(board_size)`. */
  function IsValid(m: Move, boardSize: int): (r: Result<bool>)
  {
    var v := Value(m);
    if v == "resign" || v == "pass" then Ok(true)
    else
      match IndexOf(BoardColumns, Lower(v[0]))
      case None => Raised(ValueError(SubstringNotFound))
      case Some(x) =>
        var moveX := x + 1;
        match ParseInt(v[1..])
        case Raised(e) => Raised(e)
        case Ok(moveY) => Ok(!(moveX > boardSize || moveY > boardSize))
  }

  /** What `str.index` raises when the character is absent. */
  const SubstringNotFound := "substring not found"

  /** `is_valid`: special moves are valid on every board; a coordinate is
      valid when its column number and its row both fit the board, except
      that a column `I` raises because `i` is not a column letter. */
  lemma IsValidSpec(m: Move, boardSize: int)
    ensures !m.Coord? ==> IsValid(m, boardSize) == Ok(true)
    ensures m.Coord? && m.column == 'I' ==> IsValid(m, boardSize) == Raised(ValueError(SubstringNotFound))
    ensures m.Coord? && m.column != 'I' ==>
      var c := Lower(m.column);
      IsAsciiLower(c) && c != 'i' &&
      IsValid(m, boardSize) == Ok(ColumnNumber(c) <= boardSize && m.row <= boardSize)
  {
    if m.Coord? {
      CoordValue(m);
      BoardColumnMembership(m.column);
      BoardColumnIndex(Lower(m.column));
    }
  }

  /** Upper- and lower-case spellings of a coordinate are equally valid. */
  lemma IsValidCaseInsensitive(a: Move, b: Move, boardSize: int)
    requires a.Coord? && b.Coord? && a.row == b.row && Lower(a.column) == Lower(b.column)
    ensures IsValid(a, boardSize) == IsValid(b, boardSize)
  {
    IsValidSpec(a, boardSize);
    IsValidSpec(b, boardSize);
    BoardColumnMembership(a.column);
    BoardColumnMembership(b.column);
  }

  /** `move.row_index`: the digit at position 1, less one. */
  function RowIndex(m: Move): (r: Result<int>)
  {
    DigitLessOne(Value(m)[1])
  }

  /** `int(c) - 1` for one character. */
  function DigitLessOne(c: char): Result<int> {
    match ParseInt([c])
    case Raised(e) => Raised(e)
    case Ok(n) => Ok(n - 1)
  }

  /** `row_index` reads one digit only: rows 1 to 9 give 0 to 8, and every
      row from 10 to 19 gives 0; the special moves raise. */
  lemma RowIndexSpec(m: Move)
    ensures !m.Coord? ==> RowIndex(m).Raised? && RowIndex(m).exc.ValueError?
    ensures m.Coord? ==> RowIndex(m) == Ok(if m.row < 10 then m.row - 1 else 0)
  {
    if m.Coord? {
      RowDigitOf(m);
      LeadingRowDigit(m.row);
    } else {
      assert !IsDigit(Value(m)[1]);
    }
  }

  lemma RowDigitOf(m: Move)
    requires m.Coord?
    ensures Value(m)[1] == NatToString(m.row)[0]
  {
    assert Value(m) == [m.column] + NatToString(m.row);
  }

  /** The leading digit of a row of the table, less one. */
  lemma LeadingRowDigit(n: nat)
    requires 1 <= n <= 19
    ensures DigitLessOne(NatToString(n)[0]) == Ok(if n < 10 then n - 1 else 0)
  {
    var c := NatToString(n)[0];
    LeadingDigitBelowTwenty(n);
    assert IsDigit(c);
    SingleDigit(c);
  }

  /** `move.col_index`: the position of the lower-cased first character in
      `board_columns`. */
  function ColIndex(m: Move): (r: Result<nat>)
  {
    ColumnIndex(Lower(Value(m)[0]))
  }

  /** `board_columns.index(c)`. */
  function ColumnIndex(c: char): Result<nat> {
    match IndexOf(BoardColumns, c)
    case None => Raised(ValueError(SubstringNotFound))
    case Some(k) => Ok(k)
  }

  /** `col_index` skips `i` (`a`→0, `h`→7, `j`→8) and raises on `I`; the
      special moves are indexed by their first letters `p` and `r`. */
  lemma ColIndexSpec(m: Move)
    ensures m.Coord? && Lower(m.column) == 'i' ==> ColIndex(m) == Raised(ValueError(SubstringNotFound))
    ensures m.Coord? && Lower(m.column) != 'i' ==>
      IsAsciiLower(Lower(m.column)) && ColIndex(m) == Ok(ColumnPosition(Lower(m.column)))
    ensures m == Pass ==> ColIndex(m) == Ok(14)
    ensures m == Resign ==> ColIndex(m) == Ok(16)
  {
    if m.Coord? {
      CoordValue(m);
      BoardColumnMembership(m.column);
      BoardColumnIndex(Lower(m.column));
    } else {
      BoardColumnIndex(Value(m)[0]);
    }
  }

  // ---------------------------------------------------------------------
  // Stone colours

  /** The two members of `StoneColor`; `BLACK` and `WHITE` are aliases of
      `B` and `W`. */
  datatype StoneColor = Black | White

  /** `color.value`. */
  function ColorValue(c: StoneColor): string {
    match c
    case Black => "b"
    case White => "w"
  }

  /** `StoneColor(v)`: lookup by value. */
  function StoneColorOf(v: string): (r: Result<StoneColor>)
    ensures r.Raised? ==> r.exc == ValueError(NotAValid(v, "StoneColor"))
  {
    if v == "b" then Ok(Black)
    else if v == "w" then Ok(White)
    else Raised(ValueError(NotAValid(v, "StoneColor")))
  }

  /** `StoneColor[name]`: lookup by name, where each colour has two names. */
  function StoneColorByName(name: string): (r: Result<StoneColor>)
    ensures r.Raised? ==> r.exc == KeyError(name)
  {
    if name == "B" || name == "BLACK" then Ok(Black)
    else if name == "W" || name == "WHITE" then Ok(White)
    else Raised(KeyError(name))
  }

  /** An argument of `StoneColor(...)`: a member is returned as it is. */
  datatype ColorArg = ColorMember(color: StoneColor) | ColorText(text: string)

  function StoneColorOfArg(arg: ColorArg): (r: Result<StoneColor>)
    ensures arg.ColorMember? ==> r == Ok(arg.color)
    ensures arg.ColorText? ==> r == StoneColorOf(arg.text)
  {
    match arg
    case ColorMember(c) => Ok(c)
    case ColorText(v) => StoneColorOf(v)
  }

  /** Lookup by value finds exactly the colour with that value: `b` and `w`
      and nothing else. */
  lemma StoneColorOfValue(v: string, c: StoneColor)
    ensures StoneColorOf(v) == Ok(c) <==> ColorValue(c) == v
  {
  }

  /** The aliases: both names of a colour denote the same member, whose value
      is the lower-cased initial of the name. */
  lemma StoneColorNames(name: string)
    ensures StoneColorByName(name).Ok? <==> name in ["B", "BLACK", "W", "WHITE"]
    ensures StoneColorByName(name).Ok? ==> ColorValue(StoneColorByName(name).value) == [Lower(name[0])]
  {
  }

  /** The other colour. */
  function Opponent(c: StoneColor): (r: StoneColor)
    ensures r != c
    ensures ColorValue(r) != ColorValue(c)
  {
    match c
    case Black => White
    case White => Black
  }
}
