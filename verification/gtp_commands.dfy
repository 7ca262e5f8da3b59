/** The command builders of telego/gtp/commands.py. Each one sets the command
    text directly, without going through the `/n` guard of `Command(...)`,
    and inherits the framing of `str` and `bytes`. */
module GtpCommands {
  import opened Errors
  import opened Strings
  import opened Utf8
  import opened GtpBase
  import opened GtpEntities

  /** `Play(color, move)`: the colour is converted first, then the move. */
  function Play(color: ColorArg, move: MoveArg): (r: Result<Command>)
    ensures StoneColorOfArg(color).Raised? ==> r == Raised(StoneColorOfArg(color).exc)
    ensures StoneColorOfArg(color).Ok? && MoveOfArg(move).Raised? ==> r == Raised(MoveOfArg(move).exc)
    ensures r.Ok? <==> StoneColorOfArg(color).Ok? && MoveOfArg(move).Ok?
  {
    match StoneColorOfArg(color)
    case Raised(e) => Raised(e)
    case Ok(c) =>
      match MoveOfArg(move)
      case Raised(e) => Raised(e)
      case Ok(m) => Ok(Command("play " + ColorValue(c) + " " + Value(m)))
  }

  /** `Genmove(color)`. */
  function Genmove(color: ColorArg): (r: Result<Command>)
    ensures r.Ok? <==> StoneColorOfArg(color).Ok?
    ensures r.Raised? ==> r.exc == StoneColorOfArg(color).exc
  {
    match StoneColorOfArg(color)
    case Raised(e) => Raised(e)
    case Ok(c) => Ok(Command("genmove " + ColorValue(c)))
  }

  /** `Boardsize(size)` for an integer size: `int(size)` is the size itself. */
  function Boardsize(size: int): Command {
    Command("boardsize " + IntToString(size))
  }

  /** `Finalscore()`. */
  function Finalscore(): Command {
    Command("final_score")
  }

  // ---------------------------------------------------------------------
  // Reading the texts back

  /** The text of `Play` names its colour at position 5 and its move from
      position 7 on, and both read back to what was given. */
  lemma PlayReadsBack(color: ColorArg, move: MoveArg)
    requires Play(color, move).Ok?
    ensures var t := Play(color, move).value.text;
      && |t| > 7 && t[..5] == "play " && t[6] == ' '
      && StoneColorOfArg(ColorText([t[5]])) == StoneColorOfArg(color)
      && MoveOf(t[7..]) == MoveOfArg(move)
  {
    var c, m := StoneColorOfArg(color).value, MoveOfArg(move).value;
    var t := Play(color, move).value.text;
    assert t == "play " + ColorValue(c) + " " + Value(m);
    assert [t[5]] == ColorValue(c);
    assert t[7..] == Value(m);
    StoneColorOfValue([t[5]], c);
    MoveOfValue(t[7..], m);
  }

  /** The text of `Genmove` names its colour after the eighth character. */
  lemma GenmoveReadsBack(color: ColorArg)
    requires Genmove(color).Ok?
    ensures var t := Genmove(color).value.text;
      && t[..8] == "genmove "
      && StoneColorOfArg(ColorText(t[8..])) == StoneColorOfArg(color)
  {
    var c := StoneColorOfArg(color).value;
    var t := Genmove(color).value.text;
    assert t[8..] == ColorValue(c);
    StoneColorOfValue(t[8..], c);
  }

  /** The text of `Boardsize` holds the decimal form of a natural size, and
      `int(...)` of it is the size. */
  lemma BoardsizeReadsBack(size: nat)
    ensures var t := Boardsize(size).text;
      && t[..10] == "boardsize "
      && ParseInt(t[10..]) == Ok(size)
  {
    var t := Boardsize(size).text;
    assert t[10..] == NatToString(size);
    NatToStringRoundTrip(size);
  }

  // ---------------------------------------------------------------------
  // The guard is never needed

  /** Letters, digits, spaces, `-` and `_`: every character a builder emits. */
  predicate PlainText(s: string) {
    forall i :: 0 <= i < |s| ==>
      s[i] == ' ' || s[i] == '-' || s[i] == '_' || IsAsciiLower(s[i]) || IsAsciiUpper(s[i]) || IsDigit(s[i])
  }

  /** Plain text passes the guard, so building it directly gives the same
      command, and it goes out as exactly one protocol line. */
  lemma PlainTextIsOneLine(t: string)
    requires PlainText(t)
    ensures NewCommand(t) == Ok(Command(t))
    ensures multiset(Bytes(Command(t)))[LF] == 1
  {
    assert '/' !in t && '\n' !in t by {
      forall i | 0 <= i < |t| ensures t[i] != '/' && t[i] != '\n' {
        assert PlainText(t);
      }
    }
    assert multiset(t)['\n'] == 0;
    CommandFraming(Command(t));
  }

  lemma PlainConcat(a: string, b: string)
    requires PlainText(a) && PlainText(b)
    ensures PlainText(a + b)
  {
    forall i | 0 <= i < |a + b|
      ensures var c := (a + b)[i];
        c == ' ' || c == '-' || c == '_' || IsAsciiLower(c) || IsAsciiUpper(c) || IsDigit(c)
    {
      if i >= |a| {
        assert (a + b)[i] == b[i - |a|];
      }
    }
  }

  lemma DigitsPlain(d: string)
    requires AllDigits(d)
    ensures PlainText(d)
  {
  }

  /** A move's value is a column letter and the digits of its row, or a
      lower-case word. */
  lemma ValuePlain(m: Move)
    ensures PlainText(Value(m))
  {
    if m.Coord? {
      BoardColumnMembership(m.column);
      DigitsPlain(NatToString(m.row));
      PlainConcat([m.column], NatToString(m.row));
    }
  }

  /** The texts the builders set directly would all have passed the
      `Command(...)` guard, and each goes out as a single line. */
  lemma PlayIsOneLine(color: ColorArg, move: MoveArg)
    requires Play(color, move).Ok?
    ensures var c := Play(color, move).value;
      NewCommand(c.text) == Ok(c) && multiset(Bytes(c))[LF] == 1
  {
    var m := MoveOfArg(move).value;
    ValuePlain(m);
    var t := Play(color, move).value.text;
    var head := "play " + ColorValue(StoneColorOfArg(color).value) + " ";
    assert PlainText(head);
    assert t == head + Value(m);
    PlainConcat(head, Value(m));
    PlainTextIsOneLine(t);
  }

  lemma GenmoveIsOneLine(color: ColorArg)
    requires Genmove(color).Ok?
    ensures var c := Genmove(color).value;
      NewCommand(c.text) == Ok(c) && multiset(Bytes(c))[LF] == 1
  {
    PlainTextIsOneLine(Genmove(color).value.text);
  }

  lemma BoardsizeIsOneLine(size: int)
    ensures NewCommand(Boardsize(size).text) == Ok(Boardsize(size))
    ensures multiset(Bytes(Boardsize(size)))[LF] == 1
  {
    BoardsizePlain(size);
    PlainTextIsOneLine(Boardsize(size).text);
  }

  lemma BoardsizePlain(size: int)
    ensures PlainText(Boardsize(size).text)
  {
    var n := NatToString(if size < 0 then -size else size);
    var head := if size < 0 then "boardsize -" else "boardsize ";
    assert PlainText(head);
    assert Boardsize(size).text == head + n;
    DigitsPlain(n);
    PlainConcat(head, n);
  }

  lemma FinalscoreIsOneLine()
    ensures NewCommand(Finalscore().text) == Ok(Finalscore())
    ensures multiset(Bytes(Finalscore()))[LF] == 1
  {
    PlainTextIsOneLine(Finalscore().text);
  }
}
