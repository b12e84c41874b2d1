/**
 * The networked variant of the turn engine. It runs the same board and
 * bookkeeping as `Engine.Game`, but its two pieces arrive from the server as
 * `PIECE <n>` messages, and it reports to the server with `PIECE`, `SCORE n`,
 * `LIVES n` and `DIE` messages. The Java class extends `Game`; here it owns
 * one, and overrides become methods of its own that call into it.
 */
module Multiplayer {
  import opened Optional
  import opened Strings
  import opened GamePieces
  import opened Board
  import opened Engine

  /** The piece slots and the flag that routes a delivery into one of them. */
  datatype Slots = Slots(isCurrent: bool, current: Option<GamePiece>, next: Option<GamePiece>)

  /** The slots of a new game: nothing delivered yet. */
  const Initial: Slots := Slots(true, None, None)

  /**
   * One delivered piece: while `isCurrent` holds it fills the current slot and
   * clears the flag; afterwards it fills the next slot.
   */
  function Deliver(s: Slots, p: GamePiece): (r: Slots)
    ensures !r.isCurrent
    ensures s.isCurrent ==> r.current == Some(p) && r.next == s.next
    ensures !s.isCurrent ==> r.current == s.current && r.next == Some(p)
  {
    if s.isCurrent then Slots(false, Some(p), s.next)
    else Slots(s.isCurrent, s.current, Some(p))
  }

  /** The slots after `ps` have been delivered, in order. */
  function DeliverAll(s: Slots, ps: seq<GamePiece>): Slots {
    if ps == [] then s
    else Deliver(DeliverAll(s, ps[..|ps| - 1]), ps[|ps| - 1])
  }

  /**
   * From a new game, the first delivery is the current piece for good, the
   * flag never comes back, and the next slot holds the latest later delivery.
   */
  lemma {:induction false} DeliveriesRoute(ps: seq<GamePiece>)
    requires ps != []
    ensures var r := DeliverAll(Initial, ps);
      && !r.isCurrent
      && r.current == Some(ps[0])
      && (|ps| == 1 ==> r.next == None)
      && (|ps| >= 2 ==> r.next == Some(ps[|ps| - 1]))
  {
    var init := ps[..|ps| - 1];
    if init != [] {
      DeliveriesRoute(init);
      assert init[0] == ps[0];
    }
  }

  /** The index a `PIECE` message carries: the message with its first "PIECE " removed. */
  function PieceText(message: string): string {
    ReplaceFirst(message, "PIECE ", "")
  }

  /** `"PIECE " + n`, as the server writes it, is acted on and yields `n` again. */
  lemma PieceMessageRoundTrip(n: int)
    requires IsInt32(n)
    ensures Contains("PIECE " + IntToString(n), "PIECE")
    ensures ParseInt(PieceText("PIECE " + IntToString(n))) == Some(n)
  {
    ReplaceFirstLeading("PIECE ", IntToString(n));
    ContainsLeading("PIECE ", IntToString(n), "PIECE");
    ParseIntToString(n);
  }

  /** What `gameLoop` sends: "DIE" exactly when no lives are left. */
  function DeathNotice(lives: int): seq<string> {
    if lives < 0 then ["DIE"] else []
  }

  class MultiplayerGame {
    const game: Game
    /** `GamePiece.createPiece`, which is not part of this model. */
    const createPiece: int -> GamePiece
    var currentpiece: Option<GamePiece>
    var nextpiece: Option<GamePiece>
    var isCurrent: bool
    /** Every message sent to the server so far, oldest first. */
    var sent: seq<string>

    ghost predicate Valid()
      reads this, game, game.grid
    {
      game.Valid()
    }

    function PieceSlots(): Slots
      reads this
    {
      Slots(isCurrent, currentpiece, nextpiece)
    }

    /**
     * A new game on an empty board; it asks the server for two pieces. The
     * `first` and `second` pieces are the ones the inherited engine draws at
     * creation and never uses.
     */
    constructor (cols: nat, rows: nat, createPiece: int -> GamePiece, first: GamePiece, second: GamePiece)
      ensures Valid()
      ensures fresh(game) && fresh(game.grid) && fresh(game.grid.cells)
      ensures game.cols == cols && game.rows == rows && game.grid.colour == 1
      ensures forall x, y | 0 <= x < cols && 0 <= y < rows :: game.grid.cells[x, y] == 0
      ensures game.score == 0 && game.level == 0 && game.lives == 3 && game.multiplier == 1
      ensures game.clock == Idle && !game.stop
      ensures this.createPiece == createPiece
      ensures PieceSlots() == Initial
      ensures sent == ["PIECE", "PIECE"]
    {
      game := new Game(cols, rows, first, second);
      this.createPiece := createPiece;
      currentpiece := None;
      nextpiece := None;
      isCurrent := true;
      sent := [];
      new;
      GetPiece();
      GetPiece();
    }

    /** Asks the server for one more piece. */
    method GetPiece()
      modifies this`sent
      ensures sent == old(sent) + ["PIECE"]
    {
      sent := sent + ["PIECE"];
    }

    /** The first turn begins, through this class's own `GameLoop`. */
    method Start()
      requires Valid()
      modifies game`clock, game`stop, this`sent
      ensures Valid()
      ensures game.lives < 0 ==> game.stop && game.clock == Idle
      ensures game.lives >= 0 ==> game.stop == old(game.stop) && game.clock == Armed(TimerDelay(game.level))
      ensures sent == old(sent) + DeathNotice(game.lives)
    {
      GameLoop();
    }

    /**
     * An inbound message: one that mentions "PIECE" delivers the piece whose
     * index follows "PIECE "; any other is ignored.
     */
    method ReceiveCommunication(message: string)
      requires Contains(message, "PIECE") ==> ParseInt(PieceText(message)).Some?
      modifies this`currentpiece, this`nextpiece, this`isCurrent
      ensures !Contains(message, "PIECE") ==> PieceSlots() == old(PieceSlots())
      ensures Contains(message, "PIECE") ==>
        PieceSlots() == Deliver(old(PieceSlots()), createPiece(ParseInt(PieceText(message)).value))
    {
      if Contains(message, "PIECE") {
        var message1 := ReplaceFirst(message, "PIECE ", "");
        ReceivePieceCommunication(message1);
      }
    }

    /** Routes the piece with index `mssg` into the current or the next slot. */
    method ReceivePieceCommunication(mssg: string)
      requires ParseInt(mssg).Some?
      modifies this`currentpiece, this`nextpiece, this`isCurrent
      ensures PieceSlots() == Deliver(old(PieceSlots()), createPiece(ParseInt(mssg).value))
    {
      if isCurrent {
        currentpiece := Some(createPiece(ParseInt(mssg).value));
        isCurrent := false;
      } else {
        nextpiece := Some(createPiece(ParseInt(mssg).value));
      }
    }

    /**
     * A click on (x, y) with the delivered current piece. When it fits, the
     * piece is painted, full lines are scored, the turn restarts, the new
     * score is sent and the next piece is requested; otherwise (or with no
     * current piece yet) nothing changes and nothing is sent.
     */
    method BlockClicked(x: int, y: int) returns (placed: bool, cleared: seq<Line>)
      requires Valid()
      modifies game`score, game`level, game`prevScore, game`multiplier, game`prevPieceCleared
      modifies game`clock, game`stop, game.grid, game.grid.cells, this`currentpiece, this`sent
      ensures Valid()
      ensures placed == (old(currentpiece).Some? && old(game.grid.Fits(currentpiece.value, x, y)))
      ensures !placed ==> unchanged(this) && unchanged(game) && unchanged(game.grid)
      ensures !placed ==> unchanged(game.grid.cells) && cleared == []
      ensures placed ==> game.grid.Painted(old(currentpiece).value, x, y, ColourFor(old(game.grid.colour)))
      ensures placed ==> game.grid.colour == ColourFor(old(game.grid.colour)) + 1
      ensures placed ==> cleared == game.grid.FullLines()
      ensures placed ==>
        game.Bookkeeping() == ScoredLines(old(game.Bookkeeping()), cleared, game.cols, game.rows, old(game.multiplier))
      ensures placed ==> game.multiplier == (if cleared != [] then old(game.multiplier) + 1 else 1)
      ensures placed ==> game.prevPieceCleared == (cleared != [])
      ensures placed ==> currentpiece == old(nextpiece) && nextpiece == old(nextpiece)
      ensures placed ==> game.lives < 0 ==> game.stop && game.clock == Idle
      ensures placed ==> game.lives >= 0 ==> game.stop == old(game.stop)
      ensures placed ==> game.lives >= 0 ==> game.clock == Armed(TimerDelay(game.level))
      ensures placed ==> sent == old(sent) + DeathNotice(game.lives) + ["SCORE " + IntToString(game.score), "PIECE"]
    {
      cleared := [];
      if currentpiece.None? {
        return false, cleared;
      }
      var piece := currentpiece.value;
      placed := game.grid.CanPlayPiece(piece, x, y);
      if placed {
        cleared := PlayTurn(piece, x, y);
      }
    }

    /**
     * The branch of a click that places `p`: the engine paints and scores it,
     * the turn restarts, the new score is sent and the next piece requested.
     */
    method PlayTurn(p: GamePiece, x: int, y: int) returns (cleared: seq<Line>)
      requires Valid() && game.grid.Fits(p, x, y)
      modifies game`score, game`level, game`prevScore, game`multiplier, game`prevPieceCleared
      modifies game`clock, game`stop, game.grid, game.grid.cells, this`currentpiece, this`sent
      ensures Valid()
      ensures game.grid.Painted(p, x, y, ColourFor(old(game.grid.colour)))
      ensures game.grid.colour == ColourFor(old(game.grid.colour)) + 1
      ensures cleared == game.grid.FullLines()
      ensures game.Bookkeeping() == ScoredLines(old(game.Bookkeeping()), cleared, game.cols, game.rows, old(game.multiplier))
      ensures game.multiplier == (if cleared != [] then old(game.multiplier) + 1 else 1)
      ensures game.prevPieceCleared == (cleared != [])
      ensures currentpiece == old(nextpiece)
      ensures game.lives < 0 ==> game.stop && game.clock == Idle
      ensures game.lives >= 0 ==> game.stop == old(game.stop) && game.clock == Armed(TimerDelay(game.level))
      ensures sent == old(sent) + DeathNotice(game.lives) + ["SCORE " + IntToString(game.score), "PIECE"]
    {
      cleared := game.Place(p, x, y);
      GameLoop();
      sent := sent + ["SCORE " + IntToString(game.score)];
      NextPiece();
    }

    /**
     * `gameLoop` of the networked game: as the engine's, and when no lives
     * are left it also tells the server the player is dead.
     */
    method GameLoop()
      requires Valid()
      modifies game`clock, game`stop, this`sent
      ensures Valid()
      ensures game.lives < 0 ==> game.stop && game.clock == Idle
      ensures game.lives >= 0 ==> game.stop == old(game.stop) && game.clock == Armed(TimerDelay(game.level))
      ensures sent == old(sent) + DeathNotice(game.lives)
    {
      game.GameLoop();
      if game.lives < 0 {
        sent := sent + ["DIE"];
      }
    }

    /**
     * The countdown expired: the multiplier resets, a life is lost and
     * reported, the next piece becomes current and another is requested, and
     * the next turn begins.
     */
    method Timeout()
      requires Valid() && game.clock.Armed?
      modifies game`multiplier, game`lives, game`clock, game`stop, this`currentpiece, this`sent
      ensures Valid()
      ensures game.multiplier == 1 && game.lives == old(game.lives) - 1
      ensures currentpiece == old(nextpiece) && nextpiece == old(nextpiece)
      ensures game.lives < 0 ==> game.stop && game.clock == Idle
      ensures game.lives >= 0 ==> game.stop == old(game.stop) && game.clock == Armed(TimerDelay(game.level))
      ensures sent == old(sent) + ["LIVES " + IntToString(game.lives), "PIECE"] + DeathNotice(game.lives)
    {
      game.ForfeitTurn();
      sent := sent + ["LIVES " + IntToString(game.lives)];
      NextPiece();
      GameLoop();
    }

    /** The next piece becomes current (the next slot keeps it) and one more is requested. */
    method NextPiece()
      modifies this`currentpiece, this`sent
      ensures currentpiece == old(nextpiece)
      ensures sent == old(sent) + ["PIECE"]
    {
      currentpiece := nextpiece;
      GetPiece();
    }

    /** Exchanges the two slots; doing it twice restores them. */
    method SwapCurrentPiece()
      modifies this`currentpiece, this`nextpiece
      ensures currentpiece == old(nextpiece) && nextpiece == old(currentpiece)
    {
      var tempPiece := currentpiece;
      currentpiece := nextpiece;
      nextpiece := tempPiece;
    }
  }
}
