/** The chip drop exactly as the component writes it, with no capacity check:
    the array write at the pointer of a full column appends an eighth tile to
    a seven-row column and moves the pointer to 8. The board model uses
    BoardState.Drop, which refuses a full column instead. */
module ColumnOverflow {
  import opened Results
  import opened BoardState

  /** The unguarded drop. Writing at index len of an array appends to it; the
      pointer is then incremented and the selector disabled once it is 7 or
      more. */
  function DropAsWritten(b: Board, column: nat, colour: Tile): (res: (Board, nat))
    requires column < |b.tiles| && column < |b.nextTiles| && column < |b.selectorsEnabled|
    requires b.nextTiles[column] <= |b.tiles[column]|
    ensures res.1 == b.nextTiles[column]
    ensures |res.0.tiles| == |b.tiles| && |res.0.nextTiles| == |b.nextTiles|
    ensures res.0.nextTiles[column] == b.nextTiles[column] + 1
    ensures |res.0.tiles[column]| == if b.nextTiles[column] < |b.tiles[column]| then |b.tiles[column]| else |b.tiles[column]| + 1
    ensures res.0.tiles[column][b.nextTiles[column]] == colour
  {
    var row := b.nextTiles[column];
    var col := b.tiles[column];
    var col' := if row < |col| then col[row := colour] else col + [colour];
    var nextTiles := b.nextTiles[column := row + 1];
    var selectors := if row + 1 >= Rows then b.selectorsEnabled[column := false] else b.selectorsEnabled;
    (Board(b.tiles[column := col'], nextTiles, selectors), row)
  }

  /** The reset loops as written: they rewrite rows 0..6 of each of the 6
      columns, reset the pointers and enable the selectors, and leave any tile
      above row 6 as it was. */
  function ResetAsWritten(b: Board): (r: Board)
    requires |b.tiles| == Columns && |b.nextTiles| == Columns && |b.selectorsEnabled| == Columns
    requires forall c :: 0 <= c < Columns ==> |b.tiles[c]| >= Rows
    ensures |r.tiles| == Columns
    ensures forall c :: 0 <= c < Columns ==> |r.tiles[c]| == |b.tiles[c]|
    ensures forall c, row :: 0 <= c < Columns && 0 <= row < Rows ==> r.tiles[c][row] == White
    ensures forall c, row :: 0 <= c < Columns && Rows <= row < |b.tiles[c]| ==> r.tiles[c][row] == b.tiles[c][row]
    ensures r.nextTiles == seq(Columns, _ => 0) && r.selectorsEnabled == seq(Columns, _ => true)
    ensures Shaped(b) ==> r == Initial()
  {
    var tiles := seq(Columns, c requires 0 <= c < Columns =>
                    seq(|b.tiles[c]|, row requires 0 <= row < |b.tiles[c]| => if row < Rows then White else b.tiles[c][row]));
    assert Shaped(b) ==> forall c :: 0 <= c < Columns ==> tiles[c] == Initial().tiles[c];
    Board(tiles, seq(Columns, _ => 0), seq(Columns, _ => true))
  }

  /** Below the top of a column the unguarded drop and the guarded one agree. */
  lemma AsWrittenAgreesBelowCapacity(b: Board, column: nat, colour: Tile)
    requires Shaped(b) && column < Columns && b.nextTiles[column] < Rows
    ensures Drop(b, column, colour) == Ok(DropAsWritten(b, column, colour))
  {
  }

  /** Counterexample: fill column A with seven crimson chips from the start-up
      board (every drop allowed), then let one more chip arrive for column A.
      The unguarded drop leaves an eight-tile column and a pointer of 8, so the
      board no longer has 7 rows per column, and the reset as written keeps the
      eighth gold tile; the guarded drop refuses the chip. */
  lemma AsWrittenOverfillsColumn()
    ensures DropAll(Initial(), 0, seq(Rows, _ => Crimson)).Ok?
    ensures var full := DropAll(Initial(), 0, seq(Rows, _ => Crimson)).value;
            && full.nextTiles[0] == Rows
            && var (b', row) := DropAsWritten(full, 0, Gold);
               && row == Rows
               && b'.nextTiles[0] == Rows + 1
               && |b'.tiles[0]| == Rows + 1
               && !Shaped(b')
               && Drop(full, 0, Gold) == Err(ColumnFull)
               && var cleared := ResetAsWritten(b');
                  && |cleared.tiles[0]| == Rows + 1
                  && cleared.tiles[0][Rows] == Gold
                  && !Shaped(cleared)
  {
    var chips := seq(Rows, _ => Crimson);
    SevenChipsFillAColumn(0, chips);
    var full := DropAll(Initial(), 0, chips).value;
    DropAllStacks(Initial(), 0, chips);
  }
}
