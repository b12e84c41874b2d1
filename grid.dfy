/**
 * The game board: a `cols x rows` matrix of cell values, 0 for an empty cell,
 * together with the colour counter that placements paint with.
 */
module Board {
  import opened GamePieces

  /** `playPiece` restarts its colour counter at 1 when it is above this. */
  const ColourLimit: int := 15

  /** What a painted cell becomes: its old value plus the colour, or 0 past PIECES. */
  function Paint(prev: int, colour: int): int {
    if prev + colour > PIECES then 0 else prev + colour
  }

  /** The colour a placement paints with when the counter stands at `counter`. */
  function ColourFor(counter: int): (c: int)
    ensures counter <= ColourLimit ==> c == counter
    ensures counter > ColourLimit ==> c == 1
    ensures 1 <= counter ==> 1 <= c <= ColourLimit
  {
    if counter > ColourLimit then 1 else counter
  }

  /** Board cell (a, b) lies under a shape cell of `p` centred on (x, y). */
  predicate Covers(p: GamePiece, x: int, y: int, a: int, b: int) {
    IsBlock(p, a - x + 1, b - y + 1)
  }

  /** A full line, as reported to the line-cleared listener. */
  datatype Line = Row(row: nat) | Column(col: nat)

  class Grid {
    const cols: nat
    const rows: nat
    /** `cells[x, y]` is the value in column x, row y. */
    const cells: array2<int>
    var colour: int

    ghost predicate Valid()
      reads this
    {
      && cells.Length0 == cols
      && cells.Length1 == rows
      && 1 <= colour <= ColourLimit + 1
    }

    predicate OnBoard(x: int, y: int) {
      0 <= x < cols && 0 <= y < rows
    }

    /** A new board: every cell empty, the colour counter at 1. */
    constructor (cols: nat, rows: nat)
      ensures Valid() && this.cols == cols && this.rows == rows && colour == 1
      ensures fresh(cells)
      ensures forall x, y | 0 <= x < cols && 0 <= y < rows :: cells[x, y] == 0
    {
      var g := new int[cols, rows];
      var y := 0;
      while y < rows
        invariant 0 <= y <= rows
        invariant forall a, b | 0 <= a < cols && 0 <= b < y :: g[a, b] == 0
      {
        var x := 0;
        while x < cols
          invariant 0 <= x <= cols
          invariant forall a, b | 0 <= a < cols && 0 <= b < y :: g[a, b] == 0
          invariant forall a | 0 <= a < x :: g[a, y] == 0
        {
          g[x, y] := 0;
          x := x + 1;
        }
        y := y + 1;
      }
      this.cols := cols;
      this.rows := rows;
      cells := g;
      colour := 1;
    }

    /** The value at (x, y); -1 for any coordinate off the board, negative ones included. */
    function Get(x: int, y: int): (v: int)
      reads this, cells
      requires Valid()
      ensures OnBoard(x, y) ==> v == cells[x, y]
      ensures !OnBoard(x, y) ==> v == -1
    {
      if OnBoard(x, y) then cells[x, y] else -1
    }

    /** Writes one cell and no other. */
    method Set(x: int, y: int, value: int)
      requires Valid() && OnBoard(x, y)
      modifies cells
      ensures cells[x, y] == value
      ensures forall a, b | OnBoard(a, b) && (a != x || b != y) :: cells[a, b] == old(cells[a, b])
    {
      cells[x, y] := value;
    }

    /**
     * Every shape cell of `p`, with its pattern centred on (x, y), lands on an
     * empty cell of the board.
     */
    ghost predicate Fits(p: GamePiece, x: int, y: int)
      reads this, cells
      requires Valid()
    {
      forall i, j | IsBlock(p, i, j) :: OnBoard(x - 1 + i, y - 1 + j) && cells[x - 1 + i, y - 1 + j] == 0
    }

    /** Checks a placement without changing the board or the colour counter. */
    method CanPlayPiece(p: GamePiece, x: int, y: int) returns (ok: bool)
      requires Valid()
      ensures ok <==> Fits(p, x, y)
    {
      var i := 0;
      while i < |p.blocks|
        invariant 0 <= i <= 3
        invariant forall i', j | IsBlock(p, i', j) && i' < i :: Get(x - 1 + i', y - 1 + j) == 0
      {
        var col := x - 1 + i;
        var j := 0;
        while j < 3
          invariant 0 <= j <= 3
          invariant forall i', j' | IsBlock(p, i', j') && (i' < i || (i' == i && j' < j)) ::
            Get(x - 1 + i', y - 1 + j') == 0
        {
          var row := y - 1 + j;
          if p.blocks[i][j] == p.value {
            if Get(col, row) != 0 {
              assert IsBlock(p, i, j);
              return false;
            }
          }
          j := j + 1;
        }
        i := i + 1;
      }
      return true;
    }

    /**
     * Compared with the state before, exactly the cells under shape cells of
     * `p` changed, each to `Paint(old value, c)`.
     */
    twostate predicate Painted(p: GamePiece, x: int, y: int, c: int)
      reads this, cells
    {
      forall a, b | 0 <= a < cells.Length0 && 0 <= b < cells.Length1 ::
        cells[a, b] == if Covers(p, x, y, a, b) then Paint(old(cells[a, b]), c) else old(cells[a, b])
    }

    /**
     * Paints the shape of `p` centred on (x, y) and advances the colour
     * counter once. The caller has checked that the shape lies on the board.
     */
    method PlayPiece(p: GamePiece, x: int, y: int)
      requires Valid()
      requires forall i, j | IsBlock(p, i, j) :: OnBoard(x - 1 + i, y - 1 + j)
      modifies this`colour, cells
      ensures Valid()
      ensures 1 <= ColourFor(old(colour)) <= ColourLimit
      ensures colour == ColourFor(old(colour)) + 1
      ensures Painted(p, x, y, ColourFor(old(colour)))
      ensures old(Fits(p, x, y)) ==>
        forall i, j | IsBlock(p, i, j) :: cells[x - 1 + i, y - 1 + j] == ColourFor(old(colour))
    {
      if colour > ColourLimit {
        colour := 1;
      }
      var i := 0;
      while i < |p.blocks|
        invariant 0 <= i <= 3
        invariant colour == ColourFor(old(colour))
        invariant forall a, b | 0 <= a < cols && 0 <= b < rows ::
          cells[a, b] == if Covers(p, x, y, a, b) && a - x + 1 < i then Paint(old(cells[a, b]), colour) else old(cells[a, b])
      {
        var col := x - 1 + i;
        var j := 0;
        while j < 3
          invariant 0 <= j <= 3
          invariant colour == ColourFor(old(colour))
          invariant forall a, b | 0 <= a < cols && 0 <= b < rows ::
            cells[a, b] ==
              if Covers(p, x, y, a, b) && (a - x + 1 < i || (a - x + 1 == i && b - y + 1 < j))
              then Paint(old(cells[a, b]), colour)
              else old(cells[a, b])
        {
          var row := y - 1 + j;
          if p.blocks[i][j] == p.value {
            assert IsBlock(p, i, j) && Covers(p, x, y, col, row);
            var prevValue := Get(col, row);
            var newValue := prevValue + colour;
            if newValue > PIECES {
              newValue := 0;
            }
            Set(col, row, newValue);
          }
          j := j + 1;
        }
        i := i + 1;
      }
      colour := colour + 1;
    }

    /** Every cell of row `r` is occupied. */
    ghost predicate RowFull(r: int)
      reads this, cells
      requires Valid() && 0 <= r < rows
    {
      forall c | 0 <= c < cols :: cells[c, r] != 0
    }

    /** Every cell of column `c` is occupied. */
    ghost predicate ColumnFull(c: int)
      reads this, cells
      requires Valid() && 0 <= c < cols
    {
      forall r | 0 <= r < rows :: cells[c, r] != 0
    }
  
    /** The occupied cells of row `row` are counted; all `cols` of them exactly when it is full. */
    method CountInRow(row: int) returns (count: nat)
      requires Valid() && 0 <= row < rows
      ensures count <= cols
      ensures count == cols <==> RowFull(row)
    {
      count := 0;
      var col := 0;
      while col < cols
        invariant 0 <= col <= cols
        invariant count <= col
        invariant count == col <==> forall c | 0 <= c < col :: cells[c, row] != 0
      {
        if Get(col, row) != 0 {
          count := count + 1;
        }
        col := col + 1;
      }
    }

    /** The occupied cells of column `col` are counted; all `rows` of them exactly when it is full. */
    method CountInColumn(col: int) returns (count: nat)
      requires Valid() && 0 <= col < cols
      ensures count <= rows
      ensures count == rows <==> ColumnFull(col)
    {
      count := 0;
      var row := 0;
      while row < rows
        invariant 0 <= row <= rows
        invariant count <= row
        invariant count == row <==> forall r | 0 <= r < row :: cells[col, r] != 0
      {
        if Get(col, row) != 0 {
          count := count + 1;
        }
        row := row + 1;
      }
    }

    /** The full rows among the first `n`, in increasing order. */
    ghost function FullRowsBelow(n: nat): seq<Line>
      reads this, cells
      requires Valid() && n <= rows
    {
      if n == 0 then []
      else FullRowsBelow(n - 1) + (if RowFull(n - 1) then [Row(n - 1)] else [])
    }

    /** The full columns among the first `n`, in increasing order. */
    ghost function FullColumnsBelow(n: nat): seq<Line>
      reads this, cells
      requires Valid() && n <= cols
    {
      if n == 0 then []
      else FullColumnsBelow(n - 1) + (if ColumnFull(n - 1) then [Column(n - 1)] else [])
    }

    /** Every full row, top to bottom, then every full column, left to right. */
    ghost function FullLines(): seq<Line>
      reads this, cells
      requires Valid()
    {
      FullRowsBelow(rows) + FullColumnsBelow(cols)
    }
  }
}
