# Connect Four game board ledger

A Dafny model of the board logic of the Connect Four web client's `GameBoard`
component (`src/component/GameBoard.tsx`). The board is 6 columns by 7 rows
(row 0 is the bottom). It keeps three arrays: the tile colours
`tiles[column][row]`, the next free row of each column `nextTiles[column]`,
and the enable flag of each column's drop button `selctorsEnabled[column]`.

The model has five modules:

- `Results` (`results.dfy`): the result type and the refusal reasons.
- `BoardState` (`board_state.dfy`): the board, its invariant, and the operations on it. The invariant says that each column's filled tiles are a contiguous prefix as long as its pointer, the pointer is at most 7, and the selector is enabled exactly while the column has room. The operations are start-up initialisation, reset, and the chip drop.
- `LocationCode` (`location_code.dfy`): the location code of a dropped chip. It is the column letter `A`–`F` followed by the 1-based row in decimal, for example `C4`. The module covers encoding, reading the column back with `indexOf`, and reading the row digits back.
- `GameBoard` (`game_board.dfy`): the component's handlers. These are the click on a column selector (the local move), the opponent's move arriving as a code, and the property-change hook that decides when an opponent move or a reset is applied. Each handler is one atomic state update.
- `ColumnOverflow` (`column_overflow.dfy`): the chip drop exactly as written, without a capacity check (see Findings).

Tile colours are the datatype `Tile = White | Crimson | Gold`. These are the three colour strings (`'white'`, `'crimson'`, `'gold'`) that the component ever writes. The player's colour stays a string compared with `"RED"`, as in the source. The drop callback `onChipDrop` is replaced by returning the reported code.

Three points about how the model relates to the code:

- The code's drop has no column-full check; only the disabled button guards it. Here the model departs from the code: `BoardState.Drop` refuses a full column. The code as written is kept in `ColumnOverflow` (see Findings).
- The code reads only the column letter of an opponent's code. The row digits are ignored and the chip lands on the column's pointer (`GameBoard.ExternalMoveIgnoresRow`).
- A column's button is enabled by the `enabled` property and the column's own flag. There is no turn state in the code.

## Model

| member | source | states |
|---|---|---|
| BoardState.Initial | src/component/GameBoard.tsx:108-123 | the start-up board: 6 columns of 7 white tiles, every pointer 0, every selector enabled, and it satisfies the board invariant |
| BoardState.InitGameBoard | src/component/GameBoard.tsx:108-123 | pushing, column by column, an enabled selector, a zero pointer and 7 white tiles onto empty arrays builds exactly the start-up board |
| BoardState.ResetGameBoard | src/component/GameBoard.tsx:126-140 | overwriting every selector, pointer and tile yields the start-up board whatever the prior board held; so reset is idempotent and restores the invariant |
| BoardState.Drop | src/component/GameBoard.tsx:143-156 | the chip lands at the column's old pointer, which is returned; the pointer grows by exactly 1; the selector turns off exactly when the pointer reaches 7 and is never turned on; every other tile, pointer and selector is unchanged; an index outside the board and a full column are refused |
| BoardState.DropPreservesWellFormed | src/component/GameBoard.tsx:143-154 | dropping a real chip keeps the invariant: filled prefix as long as the pointer, pointer at most 7, selector enabled exactly while there is room |
| BoardState.DropSucceedsIffSelectorEnabled | src/component/GameBoard.tsx:150-154 | on a consistent board a drop succeeds exactly when the column's selector is enabled |
| BoardState.DropPushes | src/component/GameBoard.tsx:146-148 | one drop puts its chip on top of the column's stack of chips |
| BoardState.DropAllFitsOrFails | src/component/GameBoard.tsx:143-156 | a run of drops into one column succeeds exactly when pointer plus run length is at most 7; otherwise it is refused as column-full |
| BoardState.DropAllStacks | src/component/GameBoard.tsx:146-148 | a successful run advances the pointer by its length, stacks its chips in order on the old ones, and keeps the invariant |
| BoardState.SevenChipsFillAColumn | src/component/GameBoard.tsx:143-154 | from the start-up board, n drops into a column leave its pointer at n for n at most 7; the eighth drop is refused |
| LocationCode.IndexOf | src/component/GameBoard.tsx:171 | the first position of the string among the letters, or -1 exactly when it is absent |
| LocationCode.DecimalString | src/component/GameBoard.tsx:165 | the number's text is a non-empty digit string, one digit exactly for numbers below 10 |
| LocationCode.ParseDecimalString | src/component/GameBoard.tsx:165 | reading the decimal text of a number gives the number back |
| LocationCode.Encode | src/component/GameBoard.tsx:165 | the code of a cell is the column's letter followed by at least one digit; it is exactly two characters long for rows 0..8 |
| LocationCode.ColumnOf | src/component/GameBoard.tsx:171 | the column of a code is the index of its first character among `A`–`F`, or -1 exactly when the code is empty or starts with another character |
| LocationCode.EncodeRoundTrip | src/component/GameBoard.tsx:164-165 | the code of (column, row) decodes to the same column, its digits read back as row+1, and for a board row it has the form letter `A`–`F` then digit `1`–`7` |
| LocationCode.EncodeInjective | src/component/GameBoard.tsx:164-165 | different cells have different codes |
| GameBoard.OwnChip | src/component/GameBoard.tsx:160-163 | the player's chip is crimson exactly when the player colour is `"RED"`, and gold otherwise; never white |
| GameBoard.OpponentChip | src/component/GameBoard.tsx:172-175 | the opponent's chip is never white and always differs from the player's chip |
| GameBoard.HandleColumnSelection | src/component/GameBoard.tsx:159-167 | the click handler succeeds exactly when the drop of the player's chip does; the chip lands at the old pointer; the reported code names that column and row+1 in the server's letter-digit form |
| GameBoard.SelectorEnabled | src/component/GameBoard.tsx:202 | a column's button is clickable only while the board is enabled; on a consistent board an enabled button means the column has room |
| GameBoard.ClickColumn | src/component/GameBoard.tsx:202 | a local move happens only when the board is enabled and the column's selector is enabled; otherwise it is refused |
| GameBoard.ClickColumnSound | src/component/GameBoard.tsx:159-167 | on a consistent board a click succeeds exactly when its button is enabled; the board stays consistent, the player's chip sits at the old pointer and the reported row is in 1..7 |
| GameBoard.ProcessExternalMove | src/component/GameBoard.tsx:170-177 | the opponent's chip lands at the pointer of the column named by the code's first letter; an unknown letter is refused exactly as a missing column |
| GameBoard.ExternalMovePreservesWellFormed | src/component/GameBoard.tsx:170-177 | accepting an opponent move keeps the board invariant |
| GameBoard.ExternalMoveIgnoresRow | src/component/GameBoard.tsx:171-176 | two opponent codes for the same column have the same effect, whatever rows they name |
| GameBoard.BoardsStayInSync | src/component/GameBoard.tsx:159-176 | the code a player's click reports, replayed as an opponent move on a copy of the board owned by the other colour, yields the same board |
| GameBoard.AppliesExternalMove | src/component/GameBoard.tsx:99 | an opponent move is never taken from unchanged move text, and never from empty text |
| GameBoard.TriggersReset | src/component/GameBoard.tsx:102 | a reset never fires while the reset flag is unchanged, and only when it is now set |
| GameBoard.ComponentDidUpdate | src/component/GameBoard.tsx:98-105 | an opponent move is applied only when the move text changed and is non-empty; a reset happens only on a false-to-true edge of the reset flag, after the move; with neither trigger the board is unchanged; the invariant is kept |
| ColumnOverflow.DropAsWritten | src/component/GameBoard.tsx:146-148 | the unguarded drop writes at the pointer and appends when the pointer equals the column length, then advances the pointer |
| ColumnOverflow.ResetAsWritten | src/component/GameBoard.tsx:132-137 | the reset loops as written whiten rows 0..6 of each column, zero the pointers and enable the selectors, but keep any tile above row 6; on a 6-by-7 board this is the start-up board |
| ColumnOverflow.AsWrittenAgreesBelowCapacity | src/component/GameBoard.tsx:143-156 | below the top of a column the unguarded drop and the guarded one agree |
| ColumnOverflow.AsWrittenOverfillsColumn | src/component/GameBoard.tsx:146-154 | after seven chips in column A, the unguarded drop gives an eight-tile column with pointer 8, and the reset as written keeps that eighth tile; the guarded drop refuses with column-full |

## Findings

| source | as written | input that shows it | evidently intended | confidence | as-written member | corrected member |
|---|---|---|---|---|---|---|
| src/component/GameBoard.tsx:143-156 | `dropChip` writes at the column's pointer with no capacity check. Only the disabled button guards it, and the opponent-move path bypasses the button. | Column A holds 7 chips and the opponent code `A1` arrives. An eighth tile is appended to the 7-row column and the pointer becomes 8. The reset loops (lines 135-137) rewrite only rows 0..6, so the eighth tile survives a reset. | A full column takes no more chips: the board has `BOARD_ROWS = 7` rows (line 13), and lines 150-154 disable a column once its pointer reaches 7. | medium, not executed | ColumnOverflow.AsWrittenOverfillsColumn | BoardState.Drop |

## Left out

- Rendering: `renderSingeColumn`, `renderColumnSelector`'s markup, `renderColumns`, `render`, the styles and pixel constants. These are presentation only. The button-enable condition at line 202 is modelled (`GameBoard.SelectorEnabled`).
- `GameTile.tsx`, `LandingPage.tsx` and `App.tsx`: canvas drawing, a static page and router wiring.
- `GamePage.tsx`: the STOMP/WebSocket client, subscriptions, start request publishing, UUID generation and logging. This is network plumbing with no turn tracking to verify. The session state machine and the heartbeat do not exist in the code.
- `StompMessagingDtos.tsx`: field holders without behaviour.
- The framework's asynchronous, batched state updates. Each handler is modelled as one atomic update.
- `onChipDrop`: the callback is replaced by the code the handler returns.
- ColumnOverflow.DropAsWritten: requires the pointer to be at most the column length. A write further out would leave holes in the array. That cannot happen: at start-up the pointer is 0 and the length 7, and each drop keeps the pointer at most the length, because the length grows exactly when the two are equal.
- BoardState.ResetGameBoard: requires the board to have its 6-by-7 shape. Every board the model builds has it, because `BoardState.Drop` refuses a full column. The code as written can build an eight-tile column, and its reset keeps the extra tile; `ColumnOverflow.ResetAsWritten` models that case.
- ColumnOverflow.ResetAsWritten: requires 6 columns of at least 7 tiles; on fewer columns or shorter columns the loops would throw or lengthen the arrays.
- GameBoard.ComponentDidUpdate: when the opponent move targets a full column and the reset edge fires in the same update, the model returns `ColumnFull` and skips the reset. The code throws nothing there: it overfills the column and then resets (lines 99-104). This follows from the corrected drop of the Findings row. The `NoSuchColumn` abort does match the code, where a TypeError escapes before the reset.
- A thrown TypeError: dropping into column -1, from an unknown letter, is modelled as the refusal `NoSuchColumn` rather than as an exception.
