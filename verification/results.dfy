/** The failure-carrying result used for every operation that the component
    can abort (a thrown TypeError, a write past the top of a column, a click on
    a disabled column selector). */
module Results {

  datatype Result<+T, +E> = Ok(value: T) | Err(error: E)

  /** Why a board operation was refused. */
  datatype BoardError =
    | NoSuchColumn      // the column index is outside 0..5 (an unknown column letter)
    | ColumnFull        // the column already holds 7 chips
    | SelectorDisabled  // the column's drop button is disabled
}
