/** The game board component's event handlers over the board ledger: the
    click on a column selector (the local player's move), the opponent's move
    arriving as a location code, and the property-change hook that decides when
    an opponent move or a reset is applied. Each handler is one atomic update. */
module GameBoard {
  import opened Results
  import opened BoardState
  import opened LocationCode

  /** The properties the page hands to the board (the drop callback is
      replaced by returning the reported code). */
  datatype Props = Props(playerColor: string, enabled: bool, externalMove: string, reset: bool)

  /** The chip colour of the local player: crimson for "RED", gold otherwise. */
  function OwnChip(playerColor: string): (t: Tile)
    ensures t != White
    ensures t == Crimson <==> playerColor == "RED"
  {
    if playerColor == "RED" then Crimson else Gold
  }

  /** The chip colour of the opponent: always the other of the two chip colours. */
  function OpponentChip(playerColor: string): (t: Tile)
    ensures t != White && t != OwnChip(playerColor)
  {
    if playerColor == "RED" then Gold else Crimson
  }

  /** Whether a column's drop button can be clicked: the board is enabled and
      the column's own selector is enabled. */
  predicate SelectorEnabled(props: Props, b: Board, column: nat)
    requires Shaped(b) && column < Columns
    ensures SelectorEnabled(props, b, column) ==> props.enabled
    ensures WellFormed(b) && SelectorEnabled(props, b, column) ==> b.nextTiles[column] < Rows
  {
    assert WellFormed(b) ==> ColumnConsistent(b, column);
    props.enabled && b.selectorsEnabled[column]
  }

  /** The click handler: drops the player's chip into the column and reports
      the code of the cell it landed in. */
  function HandleColumnSelection(b: Board, playerColor: string, column: nat): (res: Result<(Board, string), BoardError>)
    requires Shaped(b) && column < Columns
    ensures res.Ok? <==> Drop(b, column, OwnChip(playerColor)).Ok?
    ensures res.Ok? ==>
              var (b', code) := res.value;
              var row := b.nextTiles[column];
              && row < Rows
              && b' == Drop(b, column, OwnChip(playerColor)).value.0
              && b'.tiles[column][row] == OwnChip(playerColor)
              && WellFormedCode(code)
              && ColumnOf(code) == column
              && RowNumber(code) == row + 1
  {
    match Drop(b, column, OwnChip(playerColor))
    case Err(e) => Err(e)
    case Ok((b', row)) =>
      EncodeRoundTrip(column, row);
      Ok((b', Encode(column, row)))
  }

  /** A click on a column selector: nothing happens unless the button is
      enabled, otherwise the click handler runs. */
  function ClickColumn(b: Board, props: Props, column: nat): (res: Result<(Board, string), BoardError>)
    requires Shaped(b) && column < Columns
    ensures res.Ok? ==> SelectorEnabled(props, b, column)
    ensures !SelectorEnabled(props, b, column) ==> res == Err(SelectorDisabled)
    ensures SelectorEnabled(props, b, column) ==> res == HandleColumnSelection(b, props.playerColor, column)
  {
    if !SelectorEnabled(props, b, column) then Err(SelectorDisabled)
    else HandleColumnSelection(b, props.playerColor, column)
  }

  /** On a consistent board a click succeeds exactly when the button is
      enabled; the player's chip then lands on the column's pointer, the
      reported code is a column letter and a row digit 1..7 naming that cell,
      and the board stays consistent. */
  lemma ClickColumnSound(b: Board, props: Props, column: nat)
    requires WellFormed(b) && column < Columns
    ensures ClickColumn(b, props, column).Ok? <==> props.enabled && b.selectorsEnabled[column]
    ensures ClickColumn(b, props, column).Ok? ==>
              var (b', code) := ClickColumn(b, props, column).value;
              && WellFormed(b')
              && b'.tiles[column][b.nextTiles[column]] == OwnChip(props.playerColor)
              && b'.nextTiles[column] == b.nextTiles[column] + 1
              && code == Encode(column, b.nextTiles[column])
              && 1 <= RowNumber(code) <= Rows
  {
    DropSucceedsIffSelectorEnabled(b, column, OwnChip(props.playerColor));
    if ClickColumn(b, props, column).Ok? {
      DropPreservesWellFormed(b, column, OwnChip(props.playerColor));
    }
  }

  /** The handler for the opponent's move: the column is read from the code's
      first character and the opponent's chip lands on that column's pointer;
      the row digits of the code are not read. An unknown column letter and a
      full column are refused. */
  function ProcessExternalMove(b: Board, playerColor: string, code: string): (res: Result<Board, BoardError>)
    requires Shaped(b)
    ensures ColumnOf(code) == -1 <==> res == Err(NoSuchColumn)
    ensures 0 <= ColumnOf(code) ==> (res.Ok? <==> b.nextTiles[ColumnOf(code)] < Rows)
    ensures 0 <= ColumnOf(code) && b.nextTiles[ColumnOf(code)] >= Rows ==> res == Err(ColumnFull)
    ensures res.Ok? ==> res.value == Drop(b, ColumnOf(code), OpponentChip(playerColor)).value.0
    ensures res.Ok? ==>
              var column := ColumnOf(code);
              && 0 <= column < Columns
              && b.nextTiles[column] < Rows
              && Shaped(res.value)
              && res.value.tiles[column][b.nextTiles[column]] == OpponentChip(playerColor)
              && res.value.nextTiles[column] == b.nextTiles[column] + 1
  {
    match Drop(b, ColumnOf(code), OpponentChip(playerColor))
    case Err(e) => Err(e)
    case Ok((b', _)) => Ok(b')
  }

  /** Accepting an opponent move keeps the board consistent. */
  lemma ExternalMovePreservesWellFormed(b: Board, playerColor: string, code: string)
    requires WellFormed(b)
    requires ProcessExternalMove(b, playerColor, code).Ok?
    ensures WellFormed(ProcessExternalMove(b, playerColor, code).value)
  {
    DropPreservesWellFormed(b, ColumnOf(code), OpponentChip(playerColor));
  }

  /** The row written in an opponent's code is ignored: two codes for the same
      column have the same effect, whatever rows they name. */
  lemma ExternalMoveIgnoresRow(b: Board, playerColor: string, column: nat, row1: nat, row2: nat)
    requires Shaped(b) && column < Columns
    ensures ProcessExternalMove(b, playerColor, Encode(column, row1))
         == ProcessExternalMove(b, playerColor, Encode(column, row2))
  {
  }

  /** Two boards of opposite players stay identical: when the local player's
      click produces a code, feeding that code to the opponent's board as an
      external move yields the same board. */
  lemma BoardsStayInSync(b: Board, props: Props, column: nat, opponentColor: string)
    requires Shaped(b) && column < Columns
    requires (props.playerColor == "RED") != (opponentColor == "RED")
    requires ClickColumn(b, props, column).Ok?
    ensures ProcessExternalMove(b, opponentColor, ClickColumn(b, props, column).value.1)
         == Ok(ClickColumn(b, props, column).value.0)
  {
  }

  /** The property-change trigger for an opponent move: the move text changed
      and is not empty. */
  predicate AppliesExternalMove(prev: Props, cur: Props)
    ensures prev.externalMove == cur.externalMove ==> !AppliesExternalMove(prev, cur)
    ensures AppliesExternalMove(prev, cur) ==> |cur.externalMove| > 0
  {
    prev.externalMove != cur.externalMove && cur.externalMove != ""
  }

  /** The property-change trigger for a reset: the reset flag went from false to true. */
  predicate TriggersReset(prev: Props, cur: Props)
    ensures prev.reset == cur.reset ==> !TriggersReset(prev, cur)
    ensures TriggersReset(prev, cur) ==> cur.reset
  {
    !prev.reset && cur.reset
  }

  /** The property-change hook: applies the opponent move when its trigger
      fires, then resets the board when the reset trigger fires. A refused
      opponent move aborts the hook before the reset. */
  method ComponentDidUpdate(b: Board, prev: Props, cur: Props) returns (res: Result<Board, BoardError>)
    requires Shaped(b)
    ensures !AppliesExternalMove(prev, cur) && !TriggersReset(prev, cur) ==> res == Ok(b)
    ensures AppliesExternalMove(prev, cur) && !TriggersReset(prev, cur) ==>
              res == ProcessExternalMove(b, cur.playerColor, cur.externalMove)
    ensures TriggersReset(prev, cur) && !AppliesExternalMove(prev, cur) ==> res == Ok(Initial())
    ensures TriggersReset(prev, cur) && AppliesExternalMove(prev, cur) ==>
              res == (if ProcessExternalMove(b, cur.playerColor, cur.externalMove).Ok? then Ok(Initial())
                      else ProcessExternalMove(b, cur.playerColor, cur.externalMove))
    ensures WellFormed(b) && res.Ok? ==> WellFormed(res.value)
  {
    var board := b;
    if AppliesExternalMove(prev, cur) {
      var moved := ProcessExternalMove(board, cur.playerColor, cur.externalMove);
      if moved.Err? {
        return moved;
      }
      if WellFormed(b) {
        ExternalMovePreservesWellFormed(b, cur.playerColor, cur.externalMove);
      }
      board := moved.value;
    }
    if TriggersReset(prev, cur) {
      board := ResetGameBoard(board);
    }
    res := Ok(board);
  }
}
