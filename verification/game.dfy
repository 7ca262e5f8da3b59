/** The turn state machine of telego/game.py: a game against the engine, whose
    only state is who is to move and whether the game is set up. */
module Games {
  import opened Errors
  import opened GtpBase
  import opened GtpEntities
  import opened GtpCommands

  datatype GameState = Active | End

  datatype GameTurn = Computer | Player

  /** What `_context['turn']` raises while `_context` is None. */
  const NotSubscriptable := "'NoneType' object is not subscriptable"

  /** What `Move(None)` raises. */
  const NoneIsNotAMove := "None is not a valid Move"

  /** The turn after `_end_turn`. */
  function Flip(t: GameTurn): (r: GameTurn)
    ensures r != t
  {
    match t
    case Computer => Player
    case Player => Computer
  }

  /** `_end_turn` undoes itself. */
  lemma FlipInvolution(t: GameTurn)
    ensures Flip(Flip(t)) == t
  {
  }

  /** The turn `_startup_context` opens with: black moves first. */
  function StartupTurn(playerColor: StoneColor): (r: GameTurn)
    ensures r == Player <==> playerColor == Black
  {
    if playerColor == Black then Player else Computer
  }

  /** `Game(player_color, gtp, board_size)`. */
  class Game {
    /** `_gtp`. */
    const gtp: Engine
    /** `_player_color`. */
    const playerColor: StoneColor
    /** `_board_size`, stored and never read. */
    const boardSize: int
    /** `_context['turn']`; None while `_context` is None. */
    var turn: Option<GameTurn>
    /** `_state`. */
    var state: Option<GameState>

    constructor (playerColor: StoneColor, gtp: Engine, boardSize: int)
      ensures this.playerColor == playerColor && this.gtp == gtp && this.boardSize == boardSize
      ensures turn == None && state == None
    {
      this.playerColor, this.gtp, this.boardSize := playerColor, gtp, boardSize;
      turn, state := None, None;
    }

    /** `__init__`, which first converts its colour argument with
      `StoneColor(...)` and raises when that fails. */
    static method Init(playerColor: ColorArg, gtp: Engine, boardSize: int := 9) returns (r: Result<Game>)
      ensures r.Ok? <==> StoneColorOfArg(playerColor).Ok?
      ensures r.Raised? ==> r.exc == StoneColorOfArg(playerColor).exc
      ensures r.Ok? ==>
        && fresh(r.value) && r.value.playerColor == StoneColorOfArg(playerColor).value
        && r.value.gtp == gtp && r.value.boardSize == boardSize
        && r.value.turn == None && r.value.state == None
    {
      match StoneColorOfArg(playerColor)
      case Raised(e) =>
        return Raised(e);
      case Ok(c) =>
        var g := new Game(c, gtp, boardSize);
        return Ok(g);
    }

    /** `is_computer_turn()`. */
    function IsComputerTurn(): (r: Result<bool>)
      reads this
      ensures r.Raised? <==> turn.None?
      ensures r.Raised? ==> r.exc == TypeError(NotSubscriptable)
      ensures r.Ok? ==> (r.value <==> turn == Some(Computer))
    {
      match turn
      case None => Raised(TypeError(NotSubscriptable))
      case Some(t) => Ok(t == Computer)
    }

    /** `is_player_turn()`. */
    function IsPlayerTurn(): (r: Result<bool>)
      reads this
      ensures r.Raised? <==> turn.None?
      ensures r.Raised? ==> r.exc == TypeError(NotSubscriptable)
      ensures r.Ok? ==> (r.value <==> turn == Some(Player))
    {
      match turn
      case None => Raised(TypeError(NotSubscriptable))
      case Some(t) => Ok(t == Player)
    }

    /** `computer_color`: the colour the player does not have. */
    function ComputerColor(): (r: StoneColor)
      reads this
      ensures r != playerColor
    {
      if playerColor == Black then White else Black
    }

    /** `setup()`: starts the engine, gives the first move to black and
      makes the game active. */
    method Setup(engineOutput: string)
      modifies this, gtp
      ensures gtp.started && gtp.alive && gtp.written == [] && gtp.stdout == engineOutput
      ensures turn == Some(StartupTurn(playerColor)) && state == Some(Active)
    {
      gtp.Open(engineOutput);
      turn := Some(StartupTurn(playerColor));
      state := Some(Active);
    }

    /** `close()`: stops the engine, then forgets the state (there is no
      END state); nothing is forgotten when stopping raises. */
    method Close() returns (o: Outcome)
      modifies this, gtp
      ensures old(gtp.started) ==> o == Done && state == None && !gtp.alive
      ensures !old(gtp.started) ==> o == Fail(AttributeError("_p")) && state == old(state) && gtp.alive == old(gtp.alive)
      ensures turn == old(turn)
      ensures gtp.started == old(gtp.started) && gtp.written == old(gtp.written) && gtp.stdout == old(gtp.stdout)
    {
      o := gtp.Close();
      if o.Fail? {
        return;
      }
      state := None;
    }

    /** `_end_turn()`: hands the move to the other side. */
    method EndTurn() returns (o: Outcome)
      modifies this
      ensures old(turn).None? ==> o == Fail(TypeError(NotSubscriptable)) && turn == old(turn)
      ensures old(turn).Some? ==> o == Done && turn == Some(Flip(old(turn).value))
      ensures state == old(state)
    {
      var computer := IsComputerTurn();
      if computer.Raised? {
        return Fail(computer.exc);
      }
      if computer.value {
        turn := Some(Player);
        return Done;
      }
      var player := IsPlayerTurn();
      if player.value {
        turn := Some(Computer);
      }
      o := Done;
    }

    /** `player_play(move)`, with `reply` standing for the engine's answer to
      the `play` command (which `send_command` does not return). Out of turn
      nothing happens; a move that is not in the table, a dead engine or an
      ERROR reply leave the turn where it is; otherwise the computer is to
      move. */
    method PlayerPlay(move: MoveArg, reply: Response) returns (o: Outcome)
      modifies this, gtp
      ensures old(turn).None? ==> o == Fail(TypeError(NotSubscriptable))
      ensures old(turn) == Some(Computer) ==> o == Fail(GameTurnError)
      ensures old(turn) != Some(Player) ==> turn == old(turn) && gtp.written == old(gtp.written)
      ensures old(turn) == Some(Player) ==>
        match Play(ColorMember(playerColor), move)
        case Raised(e) => o == Fail(e) && turn == old(turn) && gtp.written == old(gtp.written)
        case Ok(c) =>
          if !old(gtp.started) then
            o == Fail(AttributeError("_p")) && turn == old(turn) && gtp.written == old(gtp.written)
          else if !old(gtp.alive) then
            o == Fail(GtpConnectionBroken) && turn == old(turn) && gtp.written == old(gtp.written)
          else
            && gtp.written == old(gtp.written) + [Bytes(c)]
            && (reply.kind == Error ==> o == Fail(GameEngineError) && turn == old(turn))
            && (reply.kind != Error ==> o == Done && turn == Some(Computer))
      ensures state == old(state)
      ensures gtp.started == old(gtp.started) && gtp.alive == old(gtp.alive) && gtp.stdout == old(gtp.stdout)
    {
      var player := IsPlayerTurn();
      if player.Raised? {
        return Fail(player.exc);
      }
      if !player.value {
        return Fail(GameTurnError);
      }
      var command := Play(ColorMember(playerColor), move);
      if command.Raised? {
        return Fail(command.exc);
      }
      var sent := gtp.SendCommand(CommandValue(command.value));
      if sent.Fail? {
        return sent;
      }
      if reply.kind == Error {
        return Fail(GameEngineError);
      }
      o := EndTurn();
    }

    /** `computer_play()`, with `reply` standing for the engine's answer to
      `genmove`. Out of turn nothing happens; any reply other than SUCCESS,
      or content that is not a move of the table, leaves the turn where it
      is; otherwise the player is to move. */
    method ComputerPlay(reply: Response) returns (o: Outcome)
      modifies this, gtp
      ensures old(turn).None? ==> o == Fail(TypeError(NotSubscriptable))
      ensures old(turn) == Some(Player) ==> o == Fail(GameTurnError)
      ensures old(turn) != Some(Computer) ==> turn == old(turn) && gtp.written == old(gtp.written)
      ensures old(turn) == Some(Computer) ==>
        if !old(gtp.started) then
          o == Fail(AttributeError("_p")) && turn == old(turn) && gtp.written == old(gtp.written)
        else if !old(gtp.alive) then
          o == Fail(GtpConnectionBroken) && turn == old(turn) && gtp.written == old(gtp.written)
        else
          && gtp.written == old(gtp.written) + [Bytes(Command("genmove " + ColorValue(ComputerColor())))]
          && (reply.kind != Success ==> o == Fail(GameEngineError) && turn == old(turn))
          && (reply.kind == Success && reply.content.None? ==>
                o == Fail(ValueError(NoneIsNotAMove)) && turn == old(turn))
          && (reply.kind == Success && reply.content.Some? && MoveOf(reply.content.value).Raised? ==>
                o == Fail(MoveOf(reply.content.value).exc) && turn == old(turn))
          && (reply.kind == Success && reply.content.Some? && MoveOf(reply.content.value).Ok? ==>
                o == Done && turn == Some(Player))
      ensures state == old(state)
      ensures gtp.started == old(gtp.started) && gtp.alive == old(gtp.alive) && gtp.stdout == old(gtp.stdout)
    {
      var computer := IsComputerTurn();
      if computer.Raised? {
        return Fail(computer.exc);
      }
      if !computer.value {
        return Fail(GameTurnError);
      }
      var command := Genmove(ColorMember(ComputerColor()));
      var sent := gtp.SendCommand(CommandValue(command.value));
      if sent.Fail? {
        return sent;
      }
      if reply.kind != Success {
        return Fail(GameEngineError);
      }
      if reply.content.None? {
        return Fail(ValueError(NoneIsNotAMove));
      }
      var m := MoveOf(reply.content.value);
      if m.Raised? {
        return Fail(m.exc);
      }
      o := EndTurn();
    }

    /** `__enter__`: sets the game up and returns it. */
    method Enter(engineOutput: string) returns (g: Game)
      modifies this, gtp
      ensures g == this
      ensures gtp.started && gtp.alive && gtp.written == [] && gtp.stdout == engineOutput
      ensures turn == Some(StartupTurn(playerColor)) && state == Some(Active)
    {
      Setup(engineOutput);
      g := this;
    }

    /** `__exit__`: always closes. */
    method Exit() returns (o: Outcome)
      modifies this, gtp
      ensures old(gtp.started) ==> o == Done && state == None && !gtp.alive
      ensures !old(gtp.started) ==> o == Fail(AttributeError("_p")) && state == old(state) && gtp.alive == old(gtp.alive)
      ensures turn == old(turn)
      ensures gtp.started == old(gtp.started) && gtp.written == old(gtp.written) && gtp.stdout == old(gtp.stdout)
    {
      o := Close();
    }
  }

  /** Once there is a turn, exactly one of `is_player_turn` and
      `is_computer_turn` holds, and neither raises. */
  lemma TurnsExclusive(g: Game)
    requires g.turn.Some?
    ensures g.IsPlayerTurn().Ok? && g.IsComputerTurn().Ok?
    ensures g.IsPlayerTurn().value != g.IsComputerTurn().value
  {
  }

  /** Right after `setup`, the player is to move exactly when playing black. */
  lemma StartupTurns(g: Game)
    requires g.turn == Some(StartupTurn(g.playerColor))
    ensures g.IsPlayerTurn() == Ok(g.playerColor == Black)
    ensures g.IsComputerTurn() == Ok(g.playerColor == White)
  {
  }

  /** `computer_color` is the complement of the player's colour. */
  lemma ComputerColorComplement(g: Game)
    ensures g.ComputerColor() == Opponent(g.playerColor)
    ensures ColorValue(g.ComputerColor()) != ColorValue(g.playerColor)
  {
  }
}
