/** The board ledger of the Connect Four game board component: a grid of
    6 columns by 7 rows (row 0 is the bottom), a fill pointer per column
    naming its next free row, and an enable flag per column selector. */
module BoardState {
  import opened Results

  const Columns: nat := 6
  const Rows: nat := 7

  /** The colour held by one tile: 'white' (empty), 'crimson' (red chip) or
      'gold' (yellow chip). */
  datatype Tile = White | Crimson | Gold

  /** tiles[column][row], nextTiles[column], selectorsEnabled[column]. */
  datatype Board = Board(tiles: seq<seq<Tile>>, nextTiles: seq<nat>, selectorsEnabled: seq<bool>)

  /** The three arrays have the board's dimensions. */
  predicate Shaped(b: Board)
  {
    && |b.tiles| == Columns
    && (forall c :: 0 <= c < |b.tiles| ==> |b.tiles[c]| == Rows)
    && |b.nextTiles| == Columns
    && |b.selectorsEnabled| == Columns
  }

  /** One column is consistent: its pointer is at most 7, its filled tiles are
      exactly the prefix below the pointer, and its selector is enabled exactly
      while the column has room. */
  predicate ColumnConsistent(b: Board, column: nat)
    requires Shaped(b) && column < Columns
  {
    && b.nextTiles[column] <= Rows
    && (forall row :: 0 <= row < Rows ==> (b.tiles[column][row] != White <==> row < b.nextTiles[column]))
    && b.selectorsEnabled[column] == (b.nextTiles[column] < Rows)
  }

  /** The board invariant kept by every operation of the component. */
  predicate WellFormed(b: Board)
  {
    Shaped(b) && forall column: nat :: column < Columns ==> ColumnConsistent(b, column)
  }

  /** The start-up board: every tile white, every pointer 0, every selector enabled. */
  function Initial(): (b: Board)
    ensures Shaped(b)
    ensures forall c, r :: 0 <= c < Columns && 0 <= r < Rows ==> b.tiles[c][r] == White
    ensures forall c :: 0 <= c < Columns ==> b.nextTiles[c] == 0 && b.selectorsEnabled[c]
    ensures WellFormed(b)
  {
    Board(seq(Columns, _ => seq(Rows, _ => White)), seq(Columns, _ => 0), seq(Columns, _ => true))
  }

  /** Builds the arrays from empty ones by pushing, column by column, an
      enabled selector, a zero pointer and a column of 7 white tiles. */
  method InitGameBoard() returns (b: Board)
    ensures b == Initial()
    ensures WellFormed(b)
  {
    var tiles: seq<seq<Tile>> := [];
    var columnSlots: seq<nat> := [];
    var selectors: seq<bool> := [];
    var column := 0;
    while column < Columns
      invariant 0 <= column <= Columns
      invariant |tiles| == column && |columnSlots| == column && |selectors| == column
      invariant forall c :: 0 <= c < column ==> tiles[c] == seq(Rows, _ => White)
      invariant forall c :: 0 <= c < column ==> columnSlots[c] == 0 && selectors[c]
    {
      selectors := selectors + [true];
      columnSlots := columnSlots + [0];
      tiles := tiles + [[]];
      var row := 0;
      while row < Rows
        invariant 0 <= row <= Rows
        invariant |tiles| == column + 1
        invariant forall c :: 0 <= c < column ==> tiles[c] == seq(Rows, _ => White)
        invariant tiles[column] == seq(row, _ => White)
      {
        tiles := tiles[column := tiles[column] + [White]];
        row := row + 1;
      }
      column := column + 1;
    }
    b := Board(tiles, columnSlots, selectors);
  }

  /** Overwrites every selector with true, every pointer with 0 and every
      tile with white, whatever the board held before. */
  method ResetGameBoard(b: Board) returns (r: Board)
    requires Shaped(b)
    ensures r == Initial()
    ensures WellFormed(r)
  {
    var tiles := b.tiles;
    var nextTiles := b.nextTiles;
    var selectors := b.selectorsEnabled;
    var column := 0;
    while column < Columns
      invariant 0 <= column <= Columns
      invariant |tiles| == Columns && |nextTiles| == Columns && |selectors| == Columns
      invariant forall c :: 0 <= c < Columns ==> |tiles[c]| == Rows
      invariant forall c :: 0 <= c < column ==> tiles[c] == seq(Rows, _ => White)
      invariant forall c :: 0 <= c < column ==> nextTiles[c] == 0 && selectors[c]
    {
      selectors := selectors[column := true];
      nextTiles := nextTiles[column := 0];
      var row := 0;
      while row < Rows
        invariant 0 <= row <= Rows
        invariant |tiles| == Columns
        invariant forall c :: 0 <= c < Columns ==> |tiles[c]| == Rows
        invariant forall c :: 0 <= c < column ==> tiles[c] == seq(Rows, _ => White)
        invariant forall k :: 0 <= k < row ==> tiles[column][k] == White
      {
        tiles := tiles[column := tiles[column][row := White]];
        row := row + 1;
      }
      assert tiles[column] == seq(Rows, _ => White);
      column := column + 1;
    }
    r := Board(tiles, nextTiles, selectors);
  }

  /** Drops a chip of the given colour into a column: the chip lands on the
      column's pointer, the pointer advances by one, and the column's selector
      is disabled once the pointer reaches 7. Returns the board and the row the
      chip landed on. An index outside the board and a full column are refused. */
  function Drop(b: Board, column: int, colour: Tile): (res: Result<(Board, nat), BoardError>)
    requires Shaped(b)
    ensures !(0 <= column < Columns) ==> res == Err(NoSuchColumn)
    ensures 0 <= column < Columns ==> (res.Err? <==> b.nextTiles[column] >= Rows)
    ensures 0 <= column < Columns && b.nextTiles[column] >= Rows ==> res == Err(ColumnFull)
    ensures res.Err? ==> res.error != SelectorDisabled
    ensures res.Ok? ==>
              var (b', row) := res.value;
              && 0 <= column < Columns
              && Shaped(b')
              && row == b.nextTiles[column] < Rows
              && b'.tiles[column][row] == colour
              && b'.nextTiles[column] == row + 1
              && b'.selectorsEnabled[column] == (b.selectorsEnabled[column] && b'.nextTiles[column] < Rows)
              && (forall c, r :: 0 <= c < Columns && 0 <= r < Rows && (c, r) != (column, row) ==>
                    b'.tiles[c][r] == b.tiles[c][r])
              && (forall c :: 0 <= c < Columns && c != column ==>
                    b'.nextTiles[c] == b.nextTiles[c] && b'.selectorsEnabled[c] == b.selectorsEnabled[c])
  {
    if !(0 <= column < Columns) then Err(NoSuchColumn)
    else if b.nextTiles[column] >= Rows then Err(ColumnFull)
    else
      var row := b.nextTiles[column];
      var tiles := b.tiles[column := b.tiles[column][row := colour]];
      var nextTiles := b.nextTiles[column := row + 1];
      var selectors := if row + 1 >= Rows then b.selectorsEnabled[column := false] else b.selectorsEnabled;
      Ok((Board(tiles, nextTiles, selectors), row))
  }

  /** Dropping a real chip keeps the board invariant. */
  lemma DropPreservesWellFormed(b: Board, column: int, colour: Tile)
    requires WellFormed(b) && colour != White
    requires Drop(b, column, colour).Ok?
    ensures WellFormed(Drop(b, column, colour).value.0)
  {
    var (b', row) := Drop(b, column, colour).value;
    forall c: nat | c < Columns
      ensures ColumnConsistent(b', c)
    {
      assert ColumnConsistent(b, c);
    }
  }

  /** On a consistent board a drop succeeds exactly when the column's selector
      is enabled: the selector is the only capacity guard. */
  lemma DropSucceedsIffSelectorEnabled(b: Board, column: nat, colour: Tile)
    requires WellFormed(b) && column < Columns
    ensures Drop(b, column, colour).Ok? <==> b.selectorsEnabled[column]
  {
    assert ColumnConsistent(b, column);
  }

  /** Drops the given chips, in order, into one column; stops at the first refusal. */
  function DropAll(b: Board, column: int, chips: seq<Tile>): (res: Result<Board, BoardError>)
    requires Shaped(b)
    ensures res.Ok? ==> Shaped(res.value)
    decreases |chips|
  {
    if |chips| == 0 then Ok(b)
    else
      match Drop(b, column, chips[0])
      case Err(e) => Err(e)
      case Ok((b', _)) => DropAll(b', column, chips[1..])
  }

  /** The chips a column holds, bottom first. */
  function Stack(b: Board, column: nat): seq<Tile>
    requires WellFormed(b) && column < Columns
  {
    assert ColumnConsistent(b, column);
    b.tiles[column][..b.nextTiles[column]]
  }

  /** One successful drop puts its chip on top of the column's stack. */
  lemma DropPushes(b: Board, column: nat, colour: Tile)
    requires WellFormed(b) && column < Columns && colour != White
    requires Drop(b, column, colour).Ok?
    ensures WellFormed(Drop(b, column, colour).value.0)
    ensures Stack(Drop(b, column, colour).value.0, column) == Stack(b, column) + [colour]
  {
    DropPreservesWellFormed(b, column, colour);
    var b' := Drop(b, column, colour).value.0;
    assert ColumnConsistent(b', column);
    assert Stack(b', column) == Stack(b, column) + [colour];
  }

  /** Filling a column: a run of drops succeeds exactly when it fits under the
      top of the column, and a run that does not fit is refused as ColumnFull. */
  lemma {:induction false} DropAllFitsOrFails(b: Board, column: nat, chips: seq<Tile>)
    requires WellFormed(b) && column < Columns
    requires forall i :: 0 <= i < |chips| ==> chips[i] != White
    ensures DropAll(b, column, chips).Ok? <==> b.nextTiles[column] + |chips| <= Rows
    ensures DropAll(b, column, chips).Err? ==> DropAll(b, column, chips).error == ColumnFull
    decreases |chips|
  {
    assert ColumnConsistent(b, column);
    if |chips| > 0 && b.nextTiles[column] < Rows {
      var b1 := Drop(b, column, chips[0]).value.0;
      DropPreservesWellFormed(b, column, chips[0]);
      DropAllFitsOrFails(b1, column, chips[1..]);
    }
  }

  /** A successful run of drops keeps the invariant, advances the pointer by the
      number of chips and stacks the chips, in order, on top of the old ones. */
  lemma {:induction false} DropAllStacks(b: Board, column: nat, chips: seq<Tile>)
    requires WellFormed(b) && column < Columns
    requires forall i :: 0 <= i < |chips| ==> chips[i] != White
    requires DropAll(b, column, chips).Ok?
    ensures WellFormed(DropAll(b, column, chips).value)
    ensures DropAll(b, column, chips).value.nextTiles[column] == b.nextTiles[column] + |chips|
    ensures Stack(DropAll(b, column, chips).value, column) == Stack(b, column) + chips
    decreases |chips|
  {
    if |chips| == 0 {
      assert Stack(b, column) + chips == Stack(b, column);
    } else {
      var b1 := Drop(b, column, chips[0]).value.0;
      assert DropAll(b, column, chips) == DropAll(b1, column, chips[1..]);
      DropPushes(b, column, chips[0]);
      DropAllStacks(b1, column, chips[1..]);
      assert (Stack(b, column) + [chips[0]]) + chips[1..] == Stack(b, column) + chips;
      var b' := DropAll(b1, column, chips[1..]).value;
      assert Stack(b', column) == Stack(b, column) + chips;
    }
  }

  /** From the start-up board a column takes exactly seven chips: any run of up
      to seven drops succeeds and sets the pointer to its length, the eighth is
      refused. */
  lemma SevenChipsFillAColumn(column: nat, chips: seq<Tile>)
    requires column < Columns
    requires forall i :: 0 <= i < |chips| ==> chips[i] != White
    ensures DropAll(Initial(), column, chips).Ok? <==> |chips| <= Rows
    ensures |chips| <= Rows ==> DropAll(Initial(), column, chips).value.nextTiles[column] == |chips|
    ensures |chips| > Rows ==> DropAll(Initial(), column, chips) == Err(ColumnFull)
  {
    DropAllFitsOrFails(Initial(), column, chips);
    if |chips| <= Rows {
      DropAllStacks(Initial(), column, chips);
    }
  }
}
