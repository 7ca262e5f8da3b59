# telego: the Go Text Protocol layer and the game turn machine

This project models the part of telego that talks to a Go engine over the Go
Text Protocol (GTP) and keeps track of whose turn it is. It covers five
pieces:

- **Wire codec** (`telego/gtp/base.py`):
  - framing of one command line: the `/n` guard, `str` and `bytes`;
  - decoding of one response line into SUCCESS, ERROR or EMPTY with its content;
  - the engine process, seen through whether it was started and is alive,
    the bytes written to its stdin, and what its stdout still holds.
    `send_command` writes one command; `recv_response` reads lines and goes
    past EMPTY ones.
- **Entities** (`telego/gtp/entities.py`): the column alphabet, the `Move`
  table with `is_valid`, `row_index` and `col_index`, and `StoneColor`.
- **Command builders** (`telego/gtp/commands.py`): `play`, `genmove`,
  `boardsize`, `final_score`.
- **Board indices** (`telego/board.py`): `_get_move_row` and `_get_move_col`.
- **Game** (`telego/game.py`): a class whose methods change `_state` and
  `_context['turn']`.

Python's exceptions are values (`Errors.Result`, `Errors.Outcome`). The
Python `str` operations the code relies on are written out in `Strings`:
`isspace`, `strip`, `split(maxsplit=1)`, `in`, `index`, `replace`, `lower`,
`int` and `str`. UTF-8 encoding is in `Utf8`.

Modules, in dependency order:
- `Errors` (errors.dfy)
- `Strings` (strings.dfy)
- `Utf8` (utf8.dfy)
- `GtpBase` (gtp_base.dfy)
- `GtpEntities` (gtp_entities.dfy)
- `GtpCommands` (gtp_commands.dfy)
- `Board` (board.dfy)
- `Games` (game.dfy)

Behaviour the model keeps as the code has it:
- The command guard looks for the two characters `/n`. A real newline
  passes it, and the command then goes out as two protocol lines.
- The empty string, which is what end of file reads as, is not whitespace.
  `Response("")` therefore raises "Unknown response type". Blank lines
  followed by end of file make `recv_response` raise that error; it does
  not raise `GTPConnectionBrokenException`.
- Upper-case `I` is a `Move`, but `is_valid` and `col_index` raise on it.
  `row_index` and `_get_move_row` read one digit only.
- `send_command` returns None, so `game.py:70-71` (`response.type` on that
  None) cannot work as written. The game methods take the engine's reply as
  a parameter. They still send their command through the engine, so the
  written bytes and the dead-engine error are part of their contracts.
- `close` sets `_state` to None; there is no END transition. Pass and
  resign get no special handling.

## Model

| member | source | states |
|---|---|---|
| Strings.ContainsPair | telego/gtp/base.py:57 | the substring test `'/n' in command`: true exactly when some position holds `/` followed by `n` |
| GtpBase.NewCommand | telego/gtp/base.py:56-59 | `Command(text)` raises ValueError exactly when the text contains `/` followed by `n`; otherwise it keeps the text |
| GtpBase.GuardRefusesSlashN | telego/gtp/base.py:57-58 | `/n` anywhere in the text is refused |
| GtpBase.GuardAdmitsNewline | telego/gtp/base.py:57-65 | a real newline passes the guard, and the bytes then hold at least two newline bytes (two protocol lines) |
| GtpBase.Str | telego/gtp/base.py:61-62 | `str(command)`, the text and one newline; what it means on the wire is stated by CommandFraming |
| GtpBase.Bytes | telego/gtp/base.py:64-65 | `bytes(command)`, the UTF-8 encoding of `str(command)`; CommandFraming states that it is the encoded text and one LF, and counts the LFs |
| GtpBase.CommandFraming | telego/gtp/base.py:61-65 | `bytes(command)` is the UTF-8 text followed by one LF; it has one LF more than the text has newlines, and an LF before the end exactly when the text has a newline |
| Utf8.NewlineBytes | telego/gtp/base.py:64-65 | the UTF-8 encoding holds byte 10 exactly as often as the text holds `\n` |
| Utf8.EncodeAppend | telego/gtp/base.py:64-65 | encoding maps concatenation to concatenation |
| Utf8.EncodeChar | telego/gtp/base.py:64-65 | one to four bytes; one byte, equal to the code point, exactly for ASCII; every byte of a longer sequence is at least 0x80 |
| Utf8.AsciiEncoding | telego/gtp/base.py:64-65 | ASCII text encodes to its own code points, one byte each |
| Strings.IsSpace | telego/gtp/base.py:88 | the character set of `str.isspace`, written out by code point; `strip`, `split` and the EMPTY test all use it |
| Strings.LStrip | telego/gtp/base.py:81 | `lstrip()`: what it drops is all whitespace, what it keeps is a tail of the input that is empty or starts with non-whitespace |
| Strings.RStrip | telego/gtp/base.py:81 | `rstrip()`: what it drops is all whitespace, what it keeps is a head of the input that is empty or ends with non-whitespace |
| Strings.Strip | telego/gtp/base.py:81 | `strip()` leaves no whitespace at either end, and gives "" exactly for an all-whitespace string |
| Strings.StripPadded | telego/gtp/base.py:81 | stripping whitespace padding around a trimmed core gives the core |
| Strings.SkipField | telego/gtp/base.py:96 | the first field of `split()`: what it drops holds no whitespace, what it keeps is a tail of the input that is empty or starts with whitespace |
| Strings.SecondField | telego/gtp/base.py:96 | `split(maxsplit=1)[1]`, when it exists, is non-empty and starts with non-whitespace |
| Strings.SecondFieldOf | telego/gtp/base.py:96 | a field, a whitespace gap and a text give the text as second part |
| Strings.SecondFieldOfOne | telego/gtp/base.py:96-98 | a single field with trailing whitespace has no second part (the IndexError case) |
| GtpBase.Content | telego/gtp/base.py:95-98 | the content is empty or starts with non-whitespace |
| GtpBase.Parse | telego/gtp/base.py:80-93 | raises the multiple-responses error exactly when the stripped line has a newline; otherwise ERROR exactly for a leading `?`, SUCCESS exactly for a leading `=`, EMPTY exactly for a non-empty all-whitespace line (content None exactly then); anything else raises "Unknown response type" |
| GtpBase.ParseMarked | telego/gtp/base.py:84-98 | a marked single line decodes to the marker's kind with the content of the stripped line |
| GtpBase.ParseWithContent | telego/gtp/base.py:84-96 | marker, optional id, whitespace, text and trailing whitespace decode to exactly that text (`"= A1\n"`, `"=3 pass"`) |
| GtpBase.ParseWithoutContent | telego/gtp/base.py:84-98 | a marker and id alone, with trailing whitespace, decode to content `''` (`"="`) |
| GtpBase.EchoRoundTrip | telego/gtp/base.py:80-98 | decoding `"= " + t + "\n"` or `"? " + t + "\n"` gives back the trimmed single-line `t` |
| GtpBase.MarkerAfterSpace | telego/gtp/base.py:84-93 | a line whose first character is whitespace and that is not all whitespace raises (a marker after whitespace is not recognised) |
| GtpBase.ReadLine | telego/gtp/base.py:31 | `readline()` splits the stream at its first newline, keeping it; without one it takes everything |
| GtpBase.ReadLineOf | telego/gtp/base.py:31 | a complete line in front of the stream is exactly what is read |
| GtpBase.ReadLineNeverMultiple | telego/gtp/base.py:81-82 | a line that `readline()` produced never triggers the multiple-responses error |
| GtpBase.Receive | telego/gtp/base.py:30-34 | what is left is no longer than the stream; with skipping, a returned response is never EMPTY |
| GtpBase.ReceiveLeavesSuffix | telego/gtp/base.py:30-34 | what is left unread is a tail of the stream |
| GtpBase.ReceiveNeverMultiple | telego/gtp/base.py:30-34 | reading line by line never raises the multiple-responses error |
| GtpBase.ReceiveOneLine | telego/gtp/base.py:30-34 | without skipping, the first line decides the result whatever its kind |
| GtpBase.ReceiveSkipsBlankLines | telego/gtp/base.py:30-34 | with skipping, any number of blank lines are consumed and the first non-EMPTY line is returned, the rest left unread |
| GtpBase.ReceiveBlanksThenEof | telego/gtp/base.py:30-34 | blank lines followed by end of file raise "Unknown response type" |
| GtpBase.Wrap | telego/gtp/base.py:39-40 | a `Command` is kept; anything else goes through `Command(...)` |
| GtpBase.Engine.constructor | telego/gtp/base.py:11-12 | stores the command line; no process yet |
| GtpBase.Engine.Open | telego/gtp/base.py:14-15 | a started, alive process with nothing written and the given output to read |
| GtpBase.Engine.Close | telego/gtp/base.py:17-18 | before `open` raises AttributeError; otherwise the process is no longer alive; nothing else changes |
| GtpBase.Engine.IsAlive | telego/gtp/base.py:20-21 | raises before `open`, else tells whether the process is alive |
| GtpBase.Engine.Enter | telego/gtp/base.py:23-25 | opens and returns the same object |
| GtpBase.Engine.Exit | telego/gtp/base.py:27-28 | the effect of `close` |
| GtpBase.Engine.SendCommand | telego/gtp/base.py:36-43 | a dead process raises GTPConnectionBrokenException with nothing written; a refused text raises its ValueError with nothing written; otherwise exactly `bytes(command)` is appended to stdin and None is returned |
| GtpBase.Engine.ReadResponse | telego/gtp/base.py:31-32 | before `open` raises AttributeError and reads nothing; otherwise one line is read and decoded, `skip` holds exactly when it is EMPTY under skipping, and then the stream has shrunk and the overall result is unchanged |
| GtpBase.Engine.RecvResponse | telego/gtp/base.py:30-34 | before `open` raises AttributeError; otherwise the response returned and the stream left are those of `Receive` on the stream before the call; the loop stands for the recursion; skipping is on by default |
| Strings.RemoveAll | telego/gtp/entities.py:7 | `replace(c, '')`: `c` no longer occurs, every other character of the input still does and nothing new appears; RemoveAllAbsent and RemoveAllAppend give the exact result |
| Strings.IndexOf | telego/gtp/entities.py:17 | `str.index`: None (Python's ValueError) exactly when the character is absent, else the position of its first occurrence |
| GtpEntities.BoardColumnsLayout | telego/gtp/entities.py:7 | `board_columns` is `a`..`h`, `j`..`z`, `A`..`Z`, 51 letters |
| GtpEntities.BoardColumnMembership | telego/gtp/entities.py:7 | a character is a column letter exactly when it is an ASCII letter other than lower-case `i` |
| GtpEntities.BoardColumnIndex | telego/gtp/entities.py:29-31 | `board_columns.index` of a lower-case letter: none for `i`, its alphabet position for `a`..`h`, one less after `i` |
| GtpEntities.MoveOf | telego/gtp/entities.py:8-11 | `Move(s)` raises a ValueError naming `s` when it fails |
| GtpEntities.Value | telego/gtp/entities.py:8-10 | `move.value`; CoordValue states its form for coordinates and MoveOfValue that lookup by value inverts it |
| GtpEntities.CoordValue | telego/gtp/entities.py:8-9 | a coordinate's value is its column letter followed by the decimal row, which `int()` reads back, and is neither `pass` nor `resign` |
| GtpEntities.MoveOfSound | telego/gtp/entities.py:8-11 | a coordinate found by `Move(s)` has value `s` |
| GtpEntities.SpecialMoves | telego/gtp/entities.py:10-11 | `pass` and `resign` are found by value; `PASS` and `RESIGN` are names, not values, and raise |
| GtpEntities.MoveOfValue | telego/gtp/entities.py:8-11 | lookup by value finds a member exactly when that member's value is the string |
| GtpEntities.MoveOfRefuses | telego/gtp/entities.py:8-11 | a string that is no member's value is refused |
| GtpEntities.MoveTable | telego/gtp/entities.py:7-11 | `<letter><n>` is a move exactly for a column letter (upper-case `I` included, lower-case `i` not) and 1 ≤ n ≤ 19; `PASS` and `RESIGN` are not values |
| GtpEntities.MoveOfArg | telego/gtp/entities.py:11 | a member passed to `Move(...)` comes back as it is; a string is looked up |
| GtpEntities.IsValid | telego/gtp/entities.py:14-21 | `is_valid`; its closed form is stated by IsValidSpec |
| Strings.ParseInt | telego/gtp/entities.py:18 | `int(s)` on unsigned decimals: succeeds exactly on a non-empty string of digits and otherwise raises a ValueError; NatToStringRoundTrip and CanonicalRoundTrip relate it to `str` |
| GtpEntities.IsValidSpec | telego/gtp/entities.py:14-21 | special moves are valid at every size; a column `I` raises; otherwise valid exactly when column number ≤ size and row ≤ size |
| GtpEntities.IsValidCaseInsensitive | telego/gtp/entities.py:17 | two spellings of a coordinate differing only in case are equally valid |
| GtpEntities.RowIndex | telego/gtp/entities.py:24-26 | `row_index`; its values are stated by RowIndexSpec |
| GtpEntities.RowIndexSpec | telego/gtp/entities.py:24-26 | rows 1..9 give 0..8, rows 10..19 give 0 (one digit read); specials raise |
| GtpEntities.ColIndex | telego/gtp/entities.py:29-31 | `col_index`; its values are stated by ColIndexSpec |
| GtpEntities.ColIndexSpec | telego/gtp/entities.py:29-31 | `i`/`I` raise; other letters get their place in `board_columns` (`a`→0, `h`→7, `j`→8); `pass`→14, `resign`→16 |
| GtpEntities.ColorValue | telego/gtp/entities.py:39-43 | `color.value`; StoneColorOfValue states that lookup by value inverts it and StoneColorNames that it is the lower-cased initial |
| GtpEntities.StoneColorOf | telego/gtp/entities.py:39-43 | `StoneColor(v)` raises a ValueError naming `v` when it fails |
| GtpEntities.StoneColorOfValue | telego/gtp/entities.py:39-43 | lookup by value accepts exactly `b` (black) and `w` (white) |
| GtpEntities.StoneColorByName | telego/gtp/entities.py:39-43 | lookup by name raises KeyError for anything but the four names |
| GtpEntities.StoneColorNames | telego/gtp/entities.py:39-43 | `B`/`BLACK` and `W`/`WHITE` name the same members, whose value is the lower-cased initial |
| GtpEntities.StoneColorOfArg | telego/gtp/entities.py:39-43 | a member passed to `StoneColor(...)` comes back as it is; a string is looked up |
| GtpEntities.Opponent | telego/game.py:59-64 | the other colour, with the other value |
| GtpCommands.Play | telego/gtp/commands.py:14-17 | raises the colour's error first, then the move's; succeeds exactly when both convert |
| GtpCommands.PlayReadsBack | telego/gtp/commands.py:14-17 | the text is `play `, colour value, space, move value; both read back to the given colour and move |
| GtpCommands.Genmove | telego/gtp/commands.py:25-27 | succeeds exactly when the colour converts, else raises its error |
| GtpCommands.GenmoveReadsBack | telego/gtp/commands.py:25-27 | the text is `genmove ` and a colour value that reads back to the colour |
| GtpCommands.Boardsize | telego/gtp/commands.py:35-37 | `Boardsize(size)`; BoardsizeReadsBack states that the text reads back to the size and BoardsizeIsOneLine that it is one protocol line |
| GtpCommands.Finalscore | telego/gtp/commands.py:55-56 | `Finalscore()`; FinalscoreIsOneLine states that it is one protocol line |
| GtpCommands.BoardsizeReadsBack | telego/gtp/commands.py:35-37 | the text is `boardsize ` and a decimal that `int()` reads back to the size |
| GtpCommands.PlainTextIsOneLine | telego/gtp/base.py:56-65 | text of letters, digits, spaces, `-` and `_` passes the guard and goes out with exactly one LF |
| GtpCommands.ValuePlain | telego/gtp/entities.py:8-10 | every move value is made of letters and digits only |
| GtpCommands.PlayIsOneLine | telego/gtp/commands.py:14-17 | the `play` text that bypasses the guard would have passed it, and goes out as one line |
| GtpCommands.GenmoveIsOneLine | telego/gtp/commands.py:25-27 | the same for `genmove` |
| GtpCommands.BoardsizeIsOneLine | telego/gtp/commands.py:35-37 | the same for `boardsize`, negative sizes included |
| GtpCommands.FinalscoreIsOneLine | telego/gtp/commands.py:55-56 | the same for `final_score` |
| Board.MoveRow | telego/board.py:25-28 | `_get_move_row`; its values are stated by MoveRowSpec |
| Board.MoveCol | telego/board.py:30-33 | `_get_move_col`; its values are stated by MoveColSpec |
| Board.MoveRowSpec | telego/board.py:25-28 | equals `Move.row_index`: rows 1..9 give 0..8, rows 10..19 give 0, specials raise |
| Board.MoveColSpec | telego/board.py:30-33 | a coordinate's column is its letter's alphabet position, `i` counted, any case; `pass`→15, `resign`→17 |
| Board.CaseInsensitive | telego/board.py:32 | `C3` and `c3` give the same row and column |
| Board.ColumnsDiverge | telego/board.py:32 | against `col_index`: the same for `a`..`h`, one greater for `j`..`z`, and 8 for `I` where `col_index` raises |
| Games.Flip | telego/game.py:87-91 | `_end_turn` always changes the turn |
| Games.FlipInvolution | telego/game.py:87-91 | `_end_turn` twice restores the turn |
| Games.StartupTurn | telego/game.py:29-38 | the player moves first exactly when playing black |
| Games.Game.constructor | telego/game.py:13-18 | stores colour, engine and board size; no context, no state |
| Games.Game.Init | telego/game.py:13-18 | raises exactly when `StoneColor(player_color)` raises, else a fresh game with the converted colour and no context or state; the board size defaults to 9 |
| Games.Game.IsComputerTurn | telego/game.py:40-41 | TypeError while there is no context, else whether the computer is to move |
| Games.Game.IsPlayerTurn | telego/game.py:43-44 | TypeError while there is no context, else whether the player is to move |
| Games.Game.ComputerColor | telego/game.py:59-64 | never the player's colour |
| Games.ComputerColorComplement | telego/game.py:59-64 | `computer_color` is the opponent of `player_color`, with the other value |
| Games.Game.Setup | telego/game.py:20-23 | opens the engine, gives the first move to black, state ACTIVE |
| Games.StartupTurns | telego/game.py:29-44 | after setup, `is_player_turn` holds exactly for black and `is_computer_turn` exactly for white |
| Games.TurnsExclusive | telego/game.py:40-44 | with a context, exactly one of the two turn tests holds and neither raises |
| Games.Game.Close | telego/game.py:25-27 | the engine is closed and the state becomes None, not END; if closing raises, the state is kept |
| Games.Game.EndTurn | telego/game.py:87-91 | the turn flips; without a context it raises TypeError |
| Games.Game.PlayerPlay | telego/game.py:66-73 | out of turn raises GameTurnError and changes nothing; a move not in the table raises its ValueError; a dead engine raises; an ERROR reply raises GameEngineError with the turn unchanged; otherwise the play command is written and the computer is to move |
| Games.Game.ComputerPlay | telego/game.py:75-85 | out of turn raises GameTurnError and changes nothing; the genmove command for the computer's colour is written; any non-SUCCESS reply, EMPTY included, raises GameEngineError; content that is not a move raises ValueError; otherwise the player is to move |
| Games.Game.Enter | telego/game.py:97-99 | sets up and returns the game itself |
| Games.Game.Exit | telego/game.py:101-102 | always the effect of `close` |

## Left out

- GtpBase.CommandArg: `send_command` on a value that is neither a `Command` nor a string (where `'/n' in x` raises TypeError, or succeeds on a list) is not modelled; the argument is a `Command` or a string.
- Process plumbing (`subprocess.Popen`, `terminate`, `poll`, telego/gtp/base.py:14-21) is abstract. A started process is alive until `close`, and everything it will print is given to `open` as one string. The delay between `terminate` and the process ending is not modelled.
- Response bytes are modelled already decoded. A `UnicodeDecodeError` from `decode('utf8')` (telego/gtp/base.py:74) is not modelled.
- `Response.__repr__` and the stored raw `_response` are not modelled.
- GtpBase.Engine.RecvResponse: the source recurses once per EMPTY line and can exceed Python's recursion limit on very long runs of blank lines; the loop model has no such limit.
- Strings.ParseInt: `int()` is modelled only on strings without sign, surrounding whitespace or underscores. Those are the only strings it receives in the modelled code. Its error message omits the offending literal.
- GtpEntities.MoveOf and GtpEntities.StoneColorOf: the error message quotes the value with plain single quotes, not with Python's `repr`.
- `Move` is one datatype restricted to the table. Python's enumeration member names (`Move['a1']`, `Move['PASS']`) are modelled only for `StoneColor`, because only the colour aliases carry meaning.
- GtpCommands.Boardsize takes an integer. `int(size)` on a string or float argument is not modelled.
- `Komi` (telego/gtp/commands.py:40-47) is left out, because it formats a float.
- The gomill board, `Board.play` and `render` (telego/board.py:12-23) are left out, because they belong to a foreign library.
- `pdb.set_trace()` (telego/game.py:79-80) is left out, and so are the `NotImplemented` stubs `board` and `_place` (telego/game.py:50-53,93-95). They have no effect on state.
- `game_state` and `player_color` are plain reads of the `state` and `playerColor` fields.
- Games.Game.PlayerPlay and Games.Game.ComputerPlay: the reply is a parameter, because `send_command` returns None. The code as written fails with AttributeError on `response.type` right after sending.
- Games.Game.ComputerPlay: the Python method returns None; its parsed move is only checked.
- telego/gtp.py (a socket client shadowed by the package), the Telegram handlers, configuration, packaging and the `__main__` demos are not part of this model.
