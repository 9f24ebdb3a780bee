/** The location code reported for a dropped chip: the column's letter
    ('A' for column 0 … 'F' for column 5) followed by the 1-based row written
    in decimal, so the chip in column 2, row 3 is "C4". */
module LocationCode {
  import opened BoardState

  /** The column letters, as the one-character strings the component stores. */
  const ColumnLetters: seq<string> := ["A", "B", "C", "D", "E", "F"]

  /** First position of x in s, or -1 when s does not contain x: JavaScript's
      Array.prototype.indexOf, comparing with ===, which for strings compares
      their characters. */
  function IndexOf(s: seq<string>, x: string): (i: int)
    ensures -1 <= i < |s|
    ensures i == -1 <==> x !in s
    ensures 0 <= i ==> s[i] == x && forall j :: 0 <= j < i ==> s[j] != x
    decreases |s|
  {
    if |s| == 0 then -1
    else if s[0] == x then 0
    else
      var i := IndexOf(s[1..], x);
      if i == -1 then -1 else i + 1
  }

  /** The decimal digit character of d. */
  function Digit(d: nat): char
    requires d < 10
  {
    ['0', '1', '2', '3', '4', '5', '6', '7', '8', '9'][d]
  }

  predicate IsDigit(ch: char)
  {
    '0' <= ch <= '9'
  }

  /** The value of a digit character. */
  function DigitValue(ch: char): (d: nat)
    requires IsDigit(ch)
    ensures d < 10 && Digit(d) == ch
  {
    (ch as int) - ('0' as int)
  }

  /** The decimal text of a non-negative number, most significant digit first
      and without leading zeros. */
  function DecimalString(n: nat): (s: string)
    ensures |s| >= 1
    ensures forall i :: 0 <= i < |s| ==> IsDigit(s[i])
    ensures (|s| == 1) <==> n < 10
    decreases n
  {
    if n < 10 then [Digit(n)] else DecimalString(n / 10) + [Digit(n % 10)]
  }

  /** Reads a string of decimal digits back as a number (the reading a
      receiver of the code applies to its row part). */
  function ParseDecimal(s: string): nat
    requires forall i :: 0 <= i < |s| ==> IsDigit(s[i])
    decreases |s|
  {
    if |s| == 0 then 0
    else ParseDecimal(s[..|s| - 1]) * 10 + DigitValue(s[|s| - 1])
  }

  /** Reading the decimal text of n gives back n. */
  lemma {:induction false} ParseDecimalString(n: nat)
    ensures ParseDecimal(DecimalString(n)) == n
    decreases n
  {
    var s := DecimalString(n);
    if n >= 10 {
      ParseDecimalString(n / 10);
      assert s[..|s| - 1] == DecimalString(n / 10);
    }
  }

  /** The code reported for a chip that landed in the given column and row. */
  function Encode(column: nat, row: nat): (code: string)
    requires column < Columns
    ensures |code| >= 2 && [code[0]] == ColumnLetters[column]
    ensures forall i :: 1 <= i < |code| ==> IsDigit(code[i])
    ensures row < 9 <==> |code| == 2
  {
    ColumnLetters[column] + DecimalString(row + 1)
  }

  /** The column named by a code: the index of its first character among the
      column letters, or -1 when that character is not a column letter (and
      for the empty code, whose first-character substring is empty). */
  function ColumnOf(code: string): (column: int)
    ensures -1 <= column < Columns
    ensures column == -1 <==> |code| == 0 || [code[0]] !in ColumnLetters
    ensures 0 <= column ==> ColumnLetters[column] == [code[0]]
  {
    IndexOf(ColumnLetters, if |code| == 0 then "" else code[..1])
  }

  /** The row digits of a code, as the 1-based row they spell. */
  function RowNumber(code: string): nat
    requires |code| >= 1 && forall i :: 1 <= i < |code| ==> IsDigit(code[i])
  {
    ParseDecimal(code[1..])
  }

  /** A code as the server expects it: one column letter then one digit 1..7. */
  predicate WellFormedCode(code: string)
  {
    |code| == 2 && [code[0]] in ColumnLetters && '1' <= code[1] <= '7'
  }

  /** Round trip: the column letter of an encoded code decodes to its column,
      its digits read back as the 1-based row, and a row on the board gives a
      code of the form letter A..F followed by digit 1..7. */
  lemma EncodeRoundTrip(column: nat, row: nat)
    requires column < Columns
    ensures var code := Encode(column, row);
              && ColumnOf(code) == column
              && (forall i :: 1 <= i < |code| ==> IsDigit(code[i]))
              && RowNumber(code) == row + 1
              && (row < Rows ==> WellFormedCode(code))
  {
    var code := Encode(column, row);
    assert code[..1] == ColumnLetters[column];
    assert code[1..] == DecimalString(row + 1);
    ParseDecimalString(row + 1);
  }

  /** Different cells have different codes. */
  lemma EncodeInjective(c1: nat, r1: nat, c2: nat, r2: nat)
    requires c1 < Columns && c2 < Columns
    requires Encode(c1, r1) == Encode(c2, r2)
    ensures c1 == c2 && r1 == r2
  {
    EncodeRoundTrip(c1, r1);
    EncodeRoundTrip(c2, r2);
  }
}
