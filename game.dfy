/**
 * The single-player turn engine: score, level, lives and multiplier
 * bookkeeping, the current and following pieces, the keyboard cursor and the
 * per-turn countdown, over one board.
 */
module Engine {
  import opened GamePieces
  import opened Board

  /** The number of blocks `score` is credited with for clearing `l`. */
  function BlocksOf(l: Line, cols: nat, rows: nat): nat {
    match l
    case Row(_) => cols
    case Column(_) => rows
  }

  /** The total of `BlocksOf` over `lines`. */
  function Blocks(lines: seq<Line>, cols: nat, rows: nat): nat {
    if lines == [] then 0
    else Blocks(lines[..|lines| - 1], cols, rows) + BlocksOf(lines[|lines| - 1], cols, rows)
  }

  /** Score bookkeeping: the score, the level, and the threshold the level last rose at. */
  datatype Tally = Tally(score: int, level: int, prevScore: int)

  /** The level trails the score in whole thousands, and never runs ahead of it. */
  predicate Consistent(t: Tally) {
    0 <= t.prevScore == 1000 * t.level <= t.score
  }

  /**
   * One `score(lines, blocks)` call at multiplier `m`: the score grows by
   * `lines * blocks * 10 * m`, then the level rises by one if the score is at
   * least 1000 above the threshold, which then moves up by 1000.
   */
  function Scored(t: Tally, lines: int, blocks: int, m: int): Tally {
    var s := t.score + lines * blocks * 10 * m;
    if s - t.prevScore >= 1000 then Tally(s, t.level + 1, t.prevScore + 1000)
    else Tally(s, t.level, t.prevScore)
  }

  /** The `score(1, blocks)` calls made for `lines`, in order, all at multiplier `m`. */
  function ScoredLines(t: Tally, lines: seq<Line>, cols: nat, rows: nat, m: int): Tally {
    if lines == [] then t
    else Scored(ScoredLines(t, lines[..|lines| - 1], cols, rows, m), 1, BlocksOf(lines[|lines| - 1], cols, rows), m)
  }

  /**
   * A `score` call with a non-negative credit adds exactly that credit, raises
   * the level by at most one (exactly when the new score is 1000 or more above
   * the threshold, which then advances by 1000), and keeps the bookkeeping
   * consistent.
   */
  lemma ScoredStep(t: Tally, lines: int, blocks: int, m: int)
    requires Consistent(t) && lines >= 0 && blocks >= 0 && m >= 1
    ensures var r := Scored(t, lines, blocks, m);
      && r.score == t.score + lines * blocks * 10 * m
      && (r.level == t.level || r.level == t.level + 1)
      && (r.level == t.level + 1 <==> r.score - t.prevScore >= 1000)
      && (r.level == t.level + 1 ==> r.prevScore == t.prevScore + 1000)
      && (r.level == t.level ==> r.prevScore == t.prevScore)
      && Consistent(r)
  {
    assert lines * blocks >= 0;
    assert lines * blocks * 10 * m >= 0;
  }

  /**
   * Clearing `lines` at multiplier `m` adds `10 * m` points per cleared block,
   * raises the level by at most one per line, and keeps the bookkeeping
   * consistent.
   */
  lemma {:induction false} ScoredLinesTotals(t: Tally, lines: seq<Line>, cols: nat, rows: nat, m: int)
    requires Consistent(t) && m >= 1
    ensures var r := ScoredLines(t, lines, cols, rows, m);
      && r.score == t.score + 10 * m * Blocks(lines, cols, rows)
      && t.level <= r.level <= t.level + |lines|
      && Consistent(r)
  {
    if lines != [] {
      var init := lines[..|lines| - 1];
      var b := BlocksOf(lines[|lines| - 1], cols, rows);
      ScoredLinesTotals(t, init, cols, rows, m);
      var mid := ScoredLines(t, init, cols, rows, m);
      ScoredStep(mid, 1, b, m);
      CreditOfOneLine(b, m);
      Distribute(10 * m, Blocks(init, cols, rows), b);
    }
  }

  /** The consistency part of `ScoredLinesTotals`, without its arithmetic. */
  lemma ScoredLinesConsistent(t: Tally, lines: seq<Line>, cols: nat, rows: nat, m: int)
    requires Consistent(t) && m >= 1
    ensures Consistent(ScoredLines(t, lines, cols, rows, m))
  {
    ScoredLinesTotals(t, lines, cols, rows, m);
  }

  /** One more cleared line is one more `score(1, blocks)` call after the others. */
  lemma ScoredLinesSnoc(t: Tally, lines: seq<Line>, l: Line, cols: nat, rows: nat, m: int)
    ensures ScoredLines(t, lines + [l], cols, rows, m) == Scored(ScoredLines(t, lines, cols, rows, m), 1, BlocksOf(l, cols, rows), m)
  {
    assert (lines + [l])[..|lines|] == lines;
  }

  /** Scoring two runs of lines one after the other is scoring their concatenation. */
  lemma {:induction false} ScoredLinesAppend(t: Tally, a: seq<Line>, b: seq<Line>, cols: nat, rows: nat, m: int)
    ensures ScoredLines(t, a + b, cols, rows, m) == ScoredLines(ScoredLines(t, a, cols, rows, m), b, cols, rows, m)
  {
    if b == [] {
      assert a + b == a;
    } else {
      var init := b[..|b| - 1];
      ScoredLinesAppend(t, a, init, cols, rows, m);
      assert (a + b)[..|a + b| - 1] == a + init;
    }
  }

  /** The credit of one cleared line, `score(1, b)` at multiplier `m`, in the order the totals use. */
  lemma CreditOfOneLine(b: int, m: int)
    ensures 1 * b * 10 * m == 10 * m * b
  {
  }

  /** Multiplication distributes over a sum; kept apart so the solver sees no other products. */
  lemma Distribute(k: int, x: int, y: int)
    ensures k * (x + y) == k * x + k * y
  {
  }

  /**
   * Where the code parts from "level = score / 1000": one `score` call raises
   * the level once, however many thousands its credit spans.
   */
  lemma LevelTrailsLargeCredit()
    ensures Scored(Tally(0, 0, 0), 1, 5, 50) == Tally(2500, 1, 1000)
  {
  }

  /** The state of the per-turn countdown. */
  datatype Clock = Idle | Armed(delay: int)

  /** `getTimerDelay`: the turn length in milliseconds at `level`. */
  function TimerDelay(level: int): (d: int)
    ensures d >= 2500
    ensures level >= 0 ==> d <= 12000
    ensures level >= 19 ==> d == 2500
    ensures level < 19 ==> d > 2500
  {
    if 12000 - 500 * level > 2500 then 12000 - 500 * level else 2500
  }

  /** A higher level never gets a longer turn. */
  lemma TimerDelayNonIncreasing(a: int, b: int)
    requires a <= b
    ensures TimerDelay(b) <= TimerDelay(a)
  {
  }

  /** Where a cursor move by ±1 (or any step) ends: kept within 0..4. */
  function Clamp(v: int): (r: int)
    ensures 0 <= r <= 4
    ensures 0 <= v <= 4 ==> r == v
    ensures v < 0 ==> r == 0
    ensures v > 4 ==> r == 4
  {
    if v <= 0 then 0 else if v >= 4 then 4 else v
  }

  class Game {
    const cols: nat
    const rows: nat
    const grid: Grid
    var current: GamePiece
    var following: GamePiece
    var score: int
    var level: int
    var lives: int
    var multiplier: int
    var prevPieceCleared: bool
    var prevScore: int
    var currentX: int
    var currentY: int
    var clock: Clock
    var stop: bool

    function Bookkeeping(): Tally
      reads this
    {
      Tally(score, level, prevScore)
    }

    ghost predicate Valid()
      reads this, grid
    {
      && grid.Valid()
      && grid.cols == cols
      && grid.rows == rows
      && multiplier >= 1
      && Consistent(Bookkeeping())
      && 0 <= currentX <= 4
      && 0 <= currentY <= 4
    }

    /**
     * A new game on an empty `cols x rows` board, with the two pieces drawn
     * at creation as current and following piece.
     */
    constructor (cols: nat, rows: nat, first: GamePiece, second: GamePiece)
      ensures Valid()
      ensures this.cols == cols && this.rows == rows
      ensures fresh(grid) && fresh(grid.cells) && grid.colour == 1
      ensures forall x, y | 0 <= x < cols && 0 <= y < rows :: grid.cells[x, y] == 0
      ensures current == first && following == second
      ensures score == 0 && level == 0 && prevScore == 0 && lives == 3 && multiplier == 1
      ensures !prevPieceCleared && currentX == 0 && currentY == 0
      ensures clock == Idle && !stop
    {
      this.cols := cols;
      this.rows := rows;
      grid := new Grid(cols, rows);
      current := first;
      following := second;
      score := 0;
      level := 0;
      lives := 3;
      multiplier := 1;
      prevPieceCleared := false;
      prevScore := 0;
      currentX := 0;
      currentY := 0;
      clock := Idle;
      stop := false;
    }

    /** `start`/`initialiseGame`: the first turn begins. */
    method Start()
      requires Valid()
      modifies this`clock, this`stop
      ensures lives < 0 ==> stop && clock == Idle
      ensures lives >= 0 ==> stop == old(stop) && clock == Armed(TimerDelay(level))
    {
      GameLoop();
    }

    /**
     * A click on (x, y): when the current piece fits there it is painted,
     * full lines are scored, the countdown restarts and the pieces advance;
     * otherwise nothing changes.
     */
    method BlockClicked(x: int, y: int, newPiece: GamePiece) returns (placed: bool, cleared: seq<Line>)
      requires Valid()
      modifies this`score, this`level, this`prevScore, this`multiplier, this`prevPieceCleared
      modifies this`current, this`following, this`clock, this`stop, grid, grid.cells
      ensures Valid()
      ensures placed == old(grid.Fits(current, x, y))
      ensures !placed ==> unchanged(this) && unchanged(grid) && unchanged(grid.cells) && cleared == []
      ensures placed ==> grid.Painted(old(current), x, y, ColourFor(old(grid.colour)))
      ensures placed ==> grid.colour == ColourFor(old(grid.colour)) + 1
      ensures placed ==> cleared == grid.FullLines()
      ensures placed ==> Bookkeeping() == ScoredLines(old(Bookkeeping()), cleared, cols, rows, old(multiplier))
      ensures placed ==> multiplier == (if cleared != [] then old(multiplier) + 1 else 1)
      ensures placed ==> prevPieceCleared == (cleared != [])
      ensures placed ==> current == old(following) && following == newPiece
      ensures placed ==> lives < 0 ==> stop && clock == Idle
      ensures placed ==> lives >= 0 ==> stop == old(stop) && clock == Armed(TimerDelay(level))
    {
      placed := grid.CanPlayPiece(current, x, y);
      cleared := [];
      if placed {
        cleared := Place(current, x, y);
        GameLoop();
        NextPiece(newPiece);
      }
    }

    /**
     * The placement half of a click, once the piece is known to fit: `p` is
     * painted onto the board, then `afterPiece` scores the full lines.
     */
    method Place(p: GamePiece, x: int, y: int) returns (cleared: seq<Line>)
      requires Valid() && grid.Fits(p, x, y)
      modifies this`score, this`level, this`prevScore, this`multiplier, this`prevPieceCleared, grid, grid.cells
      ensures Valid()
      ensures grid.Painted(p, x, y, ColourFor(old(grid.colour)))
      ensures grid.colour == ColourFor(old(grid.colour)) + 1
      ensures cleared == grid.FullLines()
      ensures Bookkeeping() == ScoredLines(old(Bookkeeping()), cleared, cols, rows, old(multiplier))
      ensures multiplier == (if cleared != [] then old(multiplier) + 1 else 1)
      ensures prevPieceCleared == (cleared != [])
    {
      grid.PlayPiece(p, x, y);
      cleared := AfterPiece();
    }

    /** `current` takes the following piece; `newPiece` (the random draw) follows it. */
    method NextPiece(newPiece: GamePiece)
      modifies this`current, this`following
      ensures current == old(following) && following == newPiece
    {
      current := following;
      following := newPiece;
    }

    /**
     * Scores every full row and every full column, each at the multiplier in
     * force on entry, then raises the multiplier by one if anything was full
     * and resets it to 1 otherwise. The board itself is left as it is.
     */
    method AfterPiece() returns (cleared: seq<Line>)
      requires Valid()
      modifies this`score, this`level, this`prevScore, this`multiplier, this`prevPieceCleared
      ensures Valid()
      ensures cleared == grid.FullLines()
      ensures Bookkeeping() == ScoredLines(old(Bookkeeping()), cleared, cols, rows, old(multiplier))
      ensures multiplier == if cleared != [] then old(multiplier) + 1 else 1
      ensures prevPieceCleared == (cleared != [])
    {
      cleared := ScoreFullLines();
      var lineCleared := cleared != [];
      ScoredLinesConsistent(old(Bookkeeping()), cleared, cols, rows, multiplier);
      if lineCleared {
        prevPieceCleared := true;
        multiplier := multiplier + 1;
      } else {
        prevPieceCleared := false;
        multiplier := 1;
      }
    }

    /** Both passes of `afterPiece`: the full rows, then the full columns. */
    method ScoreFullLines() returns (cleared: seq<Line>)
      requires grid.Valid() && grid.cols == cols && grid.rows == rows
      modifies this`score, this`level, this`prevScore
      ensures cleared == grid.FullLines()
      ensures Bookkeeping() == ScoredLines(old(Bookkeeping()), cleared, cols, rows, multiplier)
    {
      var rowLines := ScoreFullRows();
      var columnLines := ScoreFullColumns();
      cleared := rowLines + columnLines;
      ScoredLinesAppend(old(Bookkeeping()), rowLines, columnLines, cols, rows, multiplier);
    }

    /** The row pass of `afterPiece`: one `score(1, cols)` call per full row, top to bottom. */
    method ScoreFullRows() returns (cleared: seq<Line>)
      requires grid.Valid() && grid.cols == cols && grid.rows == rows
      modifies this`score, this`level, this`prevScore
      ensures cleared == grid.FullRowsBelow(rows)
      ensures Bookkeeping() == ScoredLines(old(Bookkeeping()), cleared, cols, rows, multiplier)
    {
      cleared := [];
      var row := 0;
      while row < grid.rows
        invariant 0 <= row <= rows
        invariant cleared == grid.FullRowsBelow(row)
        invariant Bookkeeping() == ScoredLines(old(Bookkeeping()), cleared, cols, rows, multiplier)
      {
        var count := grid.CountInRow(row);
        if count == grid.cols {
          Score(1, grid.cols);
          ScoredLinesSnoc(old(Bookkeeping()), cleared, Row(row), cols, rows, multiplier);
          cleared := cleared + [Row(row)];
        }
        row := row + 1;
      }
    }

    /** The column pass of `afterPiece`: one `score(1, rows)` call per full column, left to right. */
    method ScoreFullColumns() returns (cleared: seq<Line>)
      requires grid.Valid() && grid.cols == cols && grid.rows == rows
      modifies this`score, this`level, this`prevScore
      ensures cleared == grid.FullColumnsBelow(cols)
      ensures Bookkeeping() == ScoredLines(old(Bookkeeping()), cleared, cols, rows, multiplier)
    {
      cleared := [];
      var col := 0;
      while col < grid.cols
        invariant 0 <= col <= cols
        invariant cleared == grid.FullColumnsBelow(col)
        invariant Bookkeeping() == ScoredLines(old(Bookkeeping()), cleared, cols, rows, multiplier)
      {
        var count := grid.CountInColumn(col);
        if count == grid.rows {
          Score(1, grid.rows);
          ScoredLinesSnoc(old(Bookkeeping()), cleared, Column(col), cols, rows, multiplier);
          cleared := cleared + [Column(col)];
        }
        col := col + 1;
      }
    }

    /** `score(lines, blocks)`: one scoring event at the current multiplier. */
    method Score(lines: int, blocks: int)
      modifies this`score, this`level, this`prevScore
      ensures Bookkeeping() == Scored(old(Bookkeeping()), lines, blocks, multiplier)
    {
      score := lines * blocks * 10 * multiplier + score;
      if score - prevScore >= 1000 {
        level := level + 1;
        prevScore := prevScore + 1000;
      }
    }

    /** Exchanges the current and the following piece. */
    method SwapCurrentPiece()
      modifies this`current, this`following
      ensures current == old(following) && following == old(current)
    {
      var tempPiece := current;
      current := following;
      following := tempPiece;
    }

    /** Moves the cursor column by `change`, staying within 0..4. */
    method SetCurrentX(change: int)
      requires Valid()
      modifies this`currentX
      ensures Valid()
      ensures currentX == Clamp(old(currentX) + change)
    {
      if currentX + change <= 0 {
        currentX := 0;
      } else if currentX + change >= 4 {
        currentX := 4;
      } else {
        currentX := currentX + change;
      }
    }

    /** Moves the cursor row by `change`, staying within 0..4. */
    method SetCurrentY(change: int)
      requires Valid()
      modifies this`currentY
      ensures Valid()
      ensures currentY == Clamp(old(currentY) + change)
    {
      if currentY + change <= 0 {
        currentY := 0;
      } else if currentY + change >= 4 {
        currentY := 4;
      } else {
        currentY := currentY + change;
      }
    }

    /**
     * `gameLoop`: cancels the running countdown, then either stops the game
     * (no lives left) or starts a countdown of `TimerDelay(level)`.
     */
    method GameLoop()
      requires Valid()
      modifies this`clock, this`stop
      ensures Valid()
      ensures lives < 0 ==> stop && clock == Idle
      ensures lives >= 0 ==> stop == old(stop) && clock == Armed(TimerDelay(level))
    {
      clock := Idle;
      if lives < 0 {
        StopGame();
        return;
      }
      clock := Armed(TimerDelay(level));
    }

    /** The life-losing part of an expired turn: multiplier back to 1, one life fewer. */
    method ForfeitTurn()
      modifies this`multiplier, this`lives
      ensures multiplier == 1 && lives == old(lives) - 1
    {
      multiplier := 1;
      lives := lives - 1;
    }

    /**
     * The countdown expired: the multiplier resets, a life is lost, the
     * current piece is discarded for the following one, and the next turn
     * begins (or the game stops if no lives are left).
     */
    method Timeout(newPiece: GamePiece)
      requires Valid() && clock.Armed?
      modifies this`multiplier, this`lives, this`current, this`following, this`clock, this`stop
      ensures Valid()
      ensures multiplier == 1 && lives == old(lives) - 1
      ensures current == old(following) && following == newPiece
      ensures lives < 0 ==> stop && clock == Idle
      ensures lives >= 0 ==> stop == old(stop) && clock == Armed(TimerDelay(level))
    {
      ForfeitTurn();
      NextPiece(newPiece);
      GameLoop();
    }

    method StopGame()
      modifies this`stop
      ensures stop
    {
      stop := true;
    }

    /** `stopGameTimer`: cancels the countdown (leaving the game). */
    method StopGameTimer()
      modifies this`clock
      ensures clock == Idle
    {
      clock := Idle;
    }
  }
}
