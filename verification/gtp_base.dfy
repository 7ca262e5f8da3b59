/** The Go Text Protocol connection of telego/gtp/base.py: framing of one
    outbound command line, decoding of one inbound response line, and the
    engine process seen through its liveness and its two pipes. */
module GtpBase {
  import opened Errors
  import opened Strings
  import opened Utf8

  const NewlineInCommand := "Cannot have newline character in command"
  const MultipleResponses := "Response is empty or contain mutiple responses"
  const UnknownResponseType := "Unknown response type"

  // ---------------------------------------------------------------------
  // Commands

  /** A command line without its terminator (`Command._command`). */
  datatype Command = Command(text: string)

  /** `Command(text)`. The guard looks for the two characters `/` `n`, not
      for a newline character. */
  function NewCommand(text: string): (r: Result<Command>)
    ensures r.Ok? <==> !ContainsPair(text, '/', 'n')
    ensures r.Ok? ==> r.value == Command(text)
    ensures r.Raised? ==> r.exc == ValueError(NewlineInCommand)
  {
    if ContainsPair(text, '/', 'n') then Raised(ValueError(NewlineInCommand))
    else Ok(Command(text))
  }

  /** `str(command)`: the text and one newline. */
  function Str(c: Command): string {
    c.text + "\n"
  }

  /** `bytes(command)`: the UTF-8 encoding of `str(command)`. */
  function Bytes(c: Command): seq<Byte> {
    Encode(Str(c))
  }

  /** The wire form of a command is its encoded text and one newline byte,
      and that byte is the only one exactly when the text has no newline. */
  lemma CommandFraming(c: Command)
    ensures Bytes(c) == Encode(c.text) + [LF]
    ensures multiset(Bytes(c))[LF] == multiset(c.text)['\n'] + 1
    ensures ('\n' in c.text) <==> LF in Bytes(c)[..|Bytes(c)| - 1]
  {
    EncodeAppend(c.text, "\n");
    assert Encode("\n") == [LF];
    NewlineBytes(c.text);
    var b := Bytes(c);
    assert b[..|b| - 1] == Encode(c.text);
    assert multiset(b) == multiset(Encode(c.text)) + multiset([LF]);
    assert ('\n' in c.text) <==> multiset(c.text)['\n'] > 0;
    assert (LF in Encode(c.text)) <==> multiset(Encode(c.text))[LF] > 0;
  }

  /** The guard refuses the two characters `/n` wherever they stand. */
  lemma GuardRefusesSlashN(pre: string, post: string)
    ensures NewCommand(pre + "/n" + post) == Raised(ValueError(NewlineInCommand))
  {
    var s := pre + "/n" + post;
    assert s[|pre|] == '/' && s[|pre| + 1] == 'n';
  }

  /** A real newline passes the guard, and the command then goes out as two
      protocol lines. */
  lemma GuardAdmitsNewline(pre: string, post: string)
    requires '/' !in pre && '/' !in post
    ensures NewCommand(pre + "\n" + post).Ok?
    ensures multiset(Bytes(NewCommand(pre + "\n" + post).value))[LF] >= 2
  {
    var s := pre + "\n" + post;
    assert '/' !in s;
    assert multiset(s)['\n'] >= 1 by { assert s[|pre|] == '\n'; }
    CommandFraming(Command(s));
  }

  // ---------------------------------------------------------------------
  // Responses

  datatype ResponseType = Success | Error | Empty

  /** A decoded response: its kind and `content` (`None` only for EMPTY). */
  datatype Response = Response(kind: ResponseType, content: Option<string>)

  /** What follows the first field of a stripped line, or "" when nothing does. */
  function Content(s: string): (r: string)
    ensures r == [] || !IsSpace(r[0])
  {
    match SecondField(s)
    case None => ""
    case Some(t) => t
  }

  /** `Response(line)` on the decoded line: `_parse`. It raises the
      multiple-responses error exactly when the stripped line still holds a
      newline; otherwise ERROR and SUCCESS are recognised by the first
      character only, EMPTY is a non-empty all-whitespace line and the only
      kind without content, and anything else (the empty string included)
      raises "Unknown response type". */
  function Parse(line: string): (r: Result<Response>)
    ensures r == Raised(ValueError(MultipleResponses)) <==> '\n' in Strip(line)
    ensures r.Raised? ==> r.exc == ValueError(MultipleResponses) || r.exc == ValueError(UnknownResponseType)
    ensures (r.Ok? && r.value.kind == Error) <==> '\n' !in Strip(line) && |line| > 0 && line[0] == '?'
    ensures (r.Ok? && r.value.kind == Success) <==> '\n' !in Strip(line) && |line| > 0 && line[0] == '='
    ensures (r.Ok? && r.value.kind == Empty) <==> IsSpaceString(line)
    ensures r.Ok? ==> (r.value.kind == Empty <==> r.value.content.None?)
  {
    var s := Strip(line);
    assert IsSpaceString(line) ==> s == [] && IsSpace(line[0]);
    assert !IsSpace('?') && !IsSpace('=');
    if '\n' in s then Raised(ValueError(MultipleResponses))
    else if |line| > 0 && line[0] == '?' then Ok(Response(Error, Some(Content(s))))
    else if |line| > 0 && line[0] == '=' then Ok(Response(Success, Some(Content(s))))
    else if IsSpaceString(line) then Ok(Response(Empty, None))
    else Raised(ValueError(UnknownResponseType))
  }

  function KindOf(marker: char): ResponseType {
    if marker == '?' then Error else Success
  }

  /** A line that starts with a marker and strips to one line decodes to
      that marker's kind with the content of the stripped line. */
  lemma ParseMarked(line: string)
    requires |line| > 0 && (line[0] == '=' || line[0] == '?')
    requires '\n' !in Strip(line)
    ensures Parse(line) == Ok(Response(KindOf(line[0]), Some(Content(Strip(line)))))
  {
  }

  /** A marker, an optional id glued to it, a whitespace gap, the text, and
      trailing whitespace decode to that text: content is everything after
      the first field (`"= A1\n"`, `"=3 pass"`). */
  lemma ParseWithContent(marker: char, id: string, gap: string, t: string, tail: string)
    requires marker == '=' || marker == '?'
    requires NoSpace(id)
    requires IsSpaceString(gap) && '\n' !in gap
    requires t != [] && Trimmed(t) && '\n' !in t
    requires AllSpace(tail)
    ensures Parse([marker] + id + gap + t + tail) == Ok(Response(KindOf(marker), Some(t)))
  {
    var line := [marker] + id + gap + t + tail;
    FramedStrip(marker, id, gap, t, tail);
    SecondFieldOf([marker] + id, gap, t);
    ParseMarked(line);
  }

  lemma FramedStrip(marker: char, id: string, gap: string, t: string, tail: string)
    requires marker == '=' || marker == '?'
    requires NoSpace(id)
    requires AllSpace(gap) && '\n' !in gap
    requires t != [] && Trimmed(t) && '\n' !in t
    requires AllSpace(tail)
    ensures NoSpace([marker] + id)
    ensures var core := [marker] + id + gap + t;
      Strip(core + tail) == core && '\n' !in core
  {
    var w := [marker] + id;
    var core := w + gap + t;
    MarkedField(marker, id);
    assert Trimmed(core) by {
      assert core[0] == marker && core[|core| - 1] == t[|t| - 1];
    }
    StripPadded([], core, tail);
    assert [] + core + tail == core + tail;
    assert '\n' !in w + gap;
  }

  /** A marker with an id glued to it is one field, with no newline. */
  lemma MarkedField(marker: char, id: string)
    requires marker == '=' || marker == '?'
    requires NoSpace(id)
    ensures NoSpace([marker] + id) && '\n' !in [marker] + id
    ensures !IsSpace(marker)
  {
    var w := [marker] + id;
    assert IsSpace('\n') && !IsSpace(marker);
    assert forall i :: 1 <= i < |w| ==> w[i] == id[i - 1];
  }

  /** A marker and its id alone, with any trailing whitespace, decode to
      empty content (`"="`, `"= \n"`). */
  lemma ParseWithoutContent(marker: char, id: string, tail: string)
    requires marker == '=' || marker == '?'
    requires NoSpace(id)
    requires AllSpace(tail)
    ensures Parse([marker] + id + tail) == Ok(Response(KindOf(marker), Some("")))
  {
    var w := [marker] + id;
    assert NoSpace(w);
    StripPadded([], w, tail);
    assert [] + w + tail == [marker] + id + tail;
    assert '\n' !in w;
    SecondFieldOfOne(w, []);
    assert w + [] == w;
  }

  /** The engine echoing `= <text>` back yields exactly that text. */
  lemma EchoRoundTrip(t: string)
    requires Trimmed(t) && '\n' !in t
    ensures Parse("= " + t + "\n") == Ok(Response(Success, Some(t)))
    ensures Parse("? " + t + "\n") == Ok(Response(Error, Some(t)))
  {
    EchoOne('=', t);
    EchoOne('?', t);
  }

  lemma EchoOne(marker: char, t: string)
    requires marker == '=' || marker == '?'
    requires Trimmed(t) && '\n' !in t
    ensures Parse([marker, ' '] + t + "\n") == Ok(Response(KindOf(marker), Some(t)))
  {
    if t == [] {
      assert [marker] + [] + " \n" == [marker, ' '] + t + "\n";
      ParseWithoutContent(marker, [], " \n");
    } else {
      assert [marker] + [] + " " == [marker, ' '];
      ParseWithContent(marker, [], " ", t, "\n");
    }
  }

  /** A marker that whitespace precedes is not recognised. */
  lemma MarkerAfterSpace(line: string)
    requires |line| > 0 && IsSpace(line[0]) && !AllSpace(line)
    ensures Parse(line).Raised?
  {
  }

  // ---------------------------------------------------------------------
  // Reading the engine's output

  /** One `readline()` on what stdout still holds: up to and including the
      first newline, or everything when there is none ("" at end of file). */
  function ReadLine(out: string): (r: (string, string))
    ensures r.0 + r.1 == out
    ensures '\n' in out ==> |r.0| > 0 && r.0[|r.0| - 1] == '\n' && '\n' !in r.0[..|r.0| - 1]
    ensures '\n' !in out ==> r == (out, "")
  {
    match IndexOf(out, '\n')
    case None => (out, "")
    case Some(k) =>
      assert out[..k + 1][..k] == out[..k];
      (out[..k + 1], out[k + 1..])
  }

  /** A complete line: it ends with its only newline. */
  predicate IsLine(l: string) {
    |l| > 0 && l[|l| - 1] == '\n' && '\n' !in l[..|l| - 1]
  }

  lemma ReadLineOf(l: string, rest: string)
    requires IsLine(l)
    ensures ReadLine(l + rest) == (l, rest)
  {
    var s := l + rest;
    forall j | 0 <= j < |l| - 1 ensures s[j] != '\n' {
      assert s[j] == l[..|l| - 1][j];
    }
    IndexOfAt(s, '\n', |l| - 1);
    assert s[..|l|] == l;
  }

  lemma StripWithoutTrailingSpace(u: string, w: char)
    requires IsSpace(w)
    ensures forall c :: c in Strip(u + [w]) ==> c in u
  {
    var s := u + [w];
    var v := LStrip(s);
    if v != [] {
      var k := |s| - |v|;
      assert v[|v| - 1] == w;
      assert RStrip(v) == RStrip(v[..|v| - 1]);
      assert v[..|v| - 1] == u[k..];
    }
  }

  /** A line that `readline()` produced never holds several responses: its
      only newline is the last character, which `strip` removes. */
  lemma ReadLineNeverMultiple(out: string)
    ensures Parse(ReadLine(out).0) != Raised(ValueError(MultipleResponses))
  {
    var line := ReadLine(out).0;
    if '\n' in out {
      var u := line[..|line| - 1];
      assert line == u + ['\n'];
      StripWithoutTrailingSpace(u, '\n');
    }
  }

  /** `recv_response(ignore_empty)` on the remaining output: the decoded
      response (or what was raised) and the output left unread. */
  function Receive(out: string, ignoreEmpty: bool): (r: (Result<Response>, string))
    ensures |r.1| <= |out|
    ensures ignoreEmpty && r.0.Ok? ==> r.0.value.kind != Empty
    decreases |out|
  {
    var (line, rest) := ReadLine(out);
    var resp := Parse(line);
    if ignoreEmpty && resp.Ok? && resp.value.kind == Empty then
      Receive(rest, ignoreEmpty)
    else
      (resp, rest)
  }

  /** What is left unread is the tail of the stream. */
  lemma {:induction false} ReceiveLeavesSuffix(out: string, ignoreEmpty: bool)
    ensures var rest := Receive(out, ignoreEmpty).1;
      out[|out| - |rest|..] == rest
    decreases |out|
  {
    var (line, rest) := ReadLine(out);
    var resp := Parse(line);
    if ignoreEmpty && resp.Ok? && resp.value.kind == Empty {
      ReceiveLeavesSuffix(rest, ignoreEmpty);
      var left := Receive(rest, ignoreEmpty).1;
      assert rest == out[|line|..];
      SuffixOfSuffix(out, rest, left);
    } else {
      assert rest == out[|line|..];
    }
  }

  lemma SuffixOfSuffix(s: string, a: string, b: string)
    requires |a| <= |s| && s[|s| - |a|..] == a
    requires |b| <= |a| && a[|a| - |b|..] == b
    ensures s[|s| - |b|..] == b
  {
    assert forall i :: 0 <= i < |b| ==> b[i] == a[|a| - |b| + i] == s[|s| - |b| + i];
  }

  /** Reading line by line never runs into the multiple-responses error. */
  lemma {:induction false} ReceiveNeverMultiple(out: string, ignoreEmpty: bool)
    ensures Receive(out, ignoreEmpty).0 != Raised(ValueError(MultipleResponses))
    decreases |out|
  {
    var (line, rest) := ReadLine(out);
    ReadLineNeverMultiple(out);
    ReceiveStep(out, ignoreEmpty);
    if ignoreEmpty && Parse(line).Ok? && Parse(line).value.kind == Empty {
      ReceiveNeverMultiple(rest, ignoreEmpty);
    }
  }

  /** One step of `Receive`: read a line, then stop or go on. */
  lemma ReceiveStep(out: string, ignoreEmpty: bool)
    ensures var lr := ReadLine(out);
      var resp := Parse(lr.0);
      && (Skips(resp, ignoreEmpty) ==> |lr.1| < |out| && Receive(out, ignoreEmpty) == Receive(lr.1, ignoreEmpty))
      && (!Skips(resp, ignoreEmpty) ==> Receive(out, ignoreEmpty) == (resp, lr.1))
  {
  }

  /** `recv_response` goes past this response. */
  predicate Skips(resp: Result<Response>, ignoreEmpty: bool) {
    ignoreEmpty && resp.Ok? && resp.value.kind == Empty
  }

  /** Concatenation of lines. */
  function Concat(lines: seq<string>): string {
    if lines == [] then "" else lines[0] + Concat(lines[1..])
  }

  predicate IsBlankLine(l: string) {
    IsLine(l) && AllSpace(l)
  }

  /** Without skipping, one line is read and decoded, whatever its kind. */
  lemma ReceiveOneLine(l: string, rest: string)
    requires IsLine(l)
    ensures Receive(l + rest, false) == (Parse(l), rest)
  {
    ReadLineOf(l, rest);
  }

  /** With skipping, blank lines are consumed and the first line that does
      not decode to EMPTY decides the result. */
  lemma {:induction false} ReceiveSkipsBlankLines(blanks: seq<string>, l: string, rest: string)
    requires forall i :: 0 <= i < |blanks| ==> IsBlankLine(blanks[i])
    requires IsLine(l) && !IsSpaceString(l)
    ensures Receive(Concat(blanks) + l + rest, true) == (Parse(l), rest)
    decreases |blanks|
  {
    if blanks == [] {
      assert Concat(blanks) + l + rest == l + rest;
      ReadLineOf(l, rest);
    } else {
      var b := blanks[0];
      var more := Concat(blanks[1..]) + l + rest;
      assert Concat(blanks) + l + rest == b + more;
      ReadLineOf(b, more);
      ReceiveSkipsBlankLines(blanks[1..], l, rest);
    }
  }

  /** Blank lines followed by the end of the stream: end of file reads as
      "", which is not a known response type. */
  lemma {:induction false} ReceiveBlanksThenEof(blanks: seq<string>)
    requires forall i :: 0 <= i < |blanks| ==> IsBlankLine(blanks[i])
    ensures Receive(Concat(blanks), true) == (Raised(ValueError(UnknownResponseType)), "")
    decreases |blanks|
  {
    if blanks != [] {
      var b := blanks[0];
      assert Concat(blanks) == b + Concat(blanks[1..]);
      ReadLineOf(b, Concat(blanks[1..]));
      ReceiveBlanksThenEof(blanks[1..]);
    }
  }

  // ---------------------------------------------------------------------
  // The engine process

  /** What `send_command` is given: a `Command`, or anything else, which it
      wraps with `Command(...)`. */
  datatype CommandArg = CommandValue(command: Command) | Text(text: string)

  function Wrap(arg: CommandArg): (r: Result<Command>)
    ensures arg.CommandValue? ==> r == Ok(arg.command)
    ensures arg.Text? ==> r == NewCommand(arg.text)
  {
    match arg
    case CommandValue(c) => Ok(c)
    case Text(t) => NewCommand(t)
  }

  /** The `GTP` object: the process it starts is seen only through whether
      it exists, whether it is alive, what was written to its stdin and what
      its stdout still holds. */
  class Engine {
    /** The command line the process is started with (`_cmd`). */
    const cmd: string
    /** `_p` exists: `open()` was called. */
    var started: bool
    /** `_p.poll() is None`. */
    var alive: bool
    /** What was written to stdin and flushed, one entry per command. */
    var written: seq<seq<Byte>>
    /** What stdout still holds, decoded. */
    var stdout: string

    constructor (cmd: string)
      ensures this.cmd == cmd
      ensures !started && !alive && written == [] && stdout == ""
    {
      this.cmd := cmd;
      started, alive, written, stdout := false, false, [], "";
    }

    /** `open()`: starts the process; `output` is everything it will print. */
    method Open(output: string)
      modifies this
      ensures started && alive && written == [] && stdout == output
    {
      started, alive, written, stdout := true, true, [], output;
    }

    /** `close()`: terminates the process. */
    method Close() returns (o: Outcome)
      modifies this
      ensures o == if old(started) then Done else Fail(AttributeError("_p"))
      ensures alive == (old(alive) && !old(started))
      ensures started == old(started) && written == old(written) && stdout == old(stdout)
    {
      if !started {
        return Fail(AttributeError("_p"));
      }
      alive := false;
      o := Done;
    }

    /** `is_alive()`. */
    function IsAlive(): (r: Result<bool>)
      reads this
      ensures r.Ok? <==> started
      ensures r.Ok? ==> r.value == alive
    {
      if started then Ok(alive) else Raised(AttributeError("_p"))
    }

    /** `__enter__`: opens the process and returns this object. */
    method Enter(output: string) returns (e: Engine)
      modifies this
      ensures e == this
      ensures started && alive && written == [] && stdout == output
    {
      Open(output);
      e := this;
    }

    /** `__exit__`: closes the process. */
    method Exit() returns (o: Outcome)
      modifies this
      ensures o == if old(started) then Done else Fail(AttributeError("_p"))
      ensures alive == (old(alive) && !old(started))
      ensures started == old(started) && written == old(written) && stdout == old(stdout)
    {
      o := Close();
    }

    /** `send_command(command)`: refuses a dead process before anything
      else, wraps a non-`Command`, writes its bytes and flushes; returns None. */
    method SendCommand(command: CommandArg) returns (o: Outcome)
      modifies this
      ensures !old(started) ==> o == Fail(AttributeError("_p")) && written == old(written)
      ensures old(started) && !old(alive) ==> o == Fail(GtpConnectionBroken) && written == old(written)
      ensures old(started) && old(alive) ==>
                match Wrap(command)
                case Raised(e) => o == Fail(e) && written == old(written)
                case Ok(c) => o == Done && written == old(written) + [Bytes(c)]
      ensures started == old(started) && alive == old(alive) && stdout == old(stdout)
    {
      if !started {
        return Fail(AttributeError("_p"));
      }
      if !alive {
        return Fail(GtpConnectionBroken);
      }
      var c := Wrap(command);
      if c.Raised? {
        return Fail(c.exc);
      }
      written := written + [Bytes(c.value)];
      o := Done;
    }

    /** One pass of `recv_response`: reads one line and decodes it; `skip`
      says the response is EMPTY and is to be gone past. Before `open` there
      is no `_p` to read from. */
    method ReadResponse(ignoreEmpty: bool) returns (resp: Result<Response>, skip: bool)
      modifies this
      ensures !old(started) ==> resp == Raised(AttributeError("_p")) && !skip && stdout == old(stdout)
      ensures old(started) ==>
        && resp == Parse(ReadLine(old(stdout)).0) && stdout == ReadLine(old(stdout)).1
        && skip == Skips(resp, ignoreEmpty)
      ensures old(started) && skip ==>
        |stdout| < |old(stdout)| && Receive(old(stdout), ignoreEmpty) == Receive(stdout, ignoreEmpty)
      ensures old(started) && !skip ==> (resp, stdout) == Receive(old(stdout), ignoreEmpty)
      ensures started == old(started) && alive == old(alive) && written == old(written)
    {
      if !started {
        return Raised(AttributeError("_p")), false;
      }
      var lr := ReadLine(stdout);
      ReceiveStep(stdout, ignoreEmpty);
      resp := Parse(lr.0);
      skip := Skips(resp, ignoreEmpty);
      stdout := lr.1;
    }

    /** `recv_response(ignore_empty)`: reads and decodes lines, going past
      EMPTY ones when asked to. */
    method RecvResponse(ignoreEmpty: bool := true) returns (r: Result<Response>)
      modifies this
      ensures !old(started) ==> r == Raised(AttributeError("_p")) && stdout == old(stdout)
      ensures old(started) ==> (r, stdout) == Receive(old(stdout), ignoreEmpty)
      ensures started == old(started) && alive == old(alive) && written == old(written)
    {
      if !started {
        return Raised(AttributeError("_p"));
      }
      while true
        invariant started && alive == old(alive) && written == old(written)
        invariant Receive(old(stdout), ignoreEmpty) == Receive(stdout, ignoreEmpty)
        decreases |stdout|
      {
        var resp, skip := ReadResponse(ignoreEmpty);
        if !skip {
          return resp;
        }
      }
    }
  }
}
