/** Container labels: column number followed by row letter. */
module Labels {

  function DigitChar(d: nat): char
    requires d < 10
  {
    '0' + d as char
  }

  function Digits(n: nat): (s: string)
    ensures s != ""
    ensures forall k :: 0 <= k < |s| ==> '0' <= s[k] <= '9'
  {
    if n < 10 then [DigitChar(n)] else Digits(n / 10) + [DigitChar(n % 10)]
  }

  /** %d */
  function Decimal(n: int): string {
    if n < 0 then "-" + Digits(-n) else Digits(n)
  }

  /** Conversion of an integer to a 32-bit rune, with wrap-around. */
  function Wrap32(n: int): int {
    (n + 0x8000_0000) % 0x1_0000_0000 - 0x8000_0000
  }

  /** %c of 'A' + rune(row - 1); values that are no code point print as U+FFFD. */
  function RowChar(row: int): char {
    var rune := Wrap32('A' as int + Wrap32(row - 1));
    if 0 <= rune < 0xD800 || 0xE000 <= rune < 0x11_0000 then rune as char else '\U{FFFD}'
  }

  function LabelFor(col: int, row: int): string {
    Decimal(col) + [RowChar(row)]
  }

  lemma {:induction false} DigitsInjective(a: nat, b: nat)
    requires Digits(a) == Digits(b)
    ensures a == b
  {
    var s, t := Digits(a), Digits(b);
    if a < 10 || b < 10 {
      assert |s| == 1 && |t| == 1;
      assert s[0] == t[0];
    } else {
      assert s[..|s| - 1] == Digits(a / 10) && t[..|t| - 1] == Digits(b / 10);
      assert s[|s| - 1] == t[|t| - 1];
      DigitsInjective(a / 10, b / 10);
    }
  }

  lemma DecimalInjective(a: int, b: int)
    requires Decimal(a) == Decimal(b)
    ensures a == b
  {
    var s, t := Decimal(a), Decimal(b);
    assert s[0] == t[0];
    if a < 0 {
      assert b < 0;
      assert s[1..] == Digits(-a) && t[1..] == Digits(-b);
      DigitsInjective(-a, -b);
    } else {
      DigitsInjective(a, b);
    }
  }

  /** The number that a row of decimal digits stands for. */
  function Value(s: string): nat
    requires forall k :: 0 <= k < |s| ==> '0' <= s[k] <= '9'
  {
    if s == "" then 0 else 10 * Value(s[..|s| - 1]) + (s[|s| - 1] as int - 48)
  }

  /** A column prints as the digits of its number, without leading zeros. */
  lemma {:induction false} DigitsMean(n: nat)
    ensures Value(Digits(n)) == n
    ensures Digits(n)[0] == '0' <==> n == 0
  {
    var s := Digits(n);
    if n < 10 {
      assert s[..|s| - 1] == "";
    } else {
      DigitsMean(n / 10);
      assert s[..|s| - 1] == Digits(n / 10);
    }
  }

  /** On the rows that a resize allows, the label is the column number and a capital letter from A on. */
  lemma LabelMeans(col: int, row: int)
    requires col >= 0 && 1 <= row <= 26
    ensures LabelFor(col, row) == Digits(col) + [(64 + row) as char]
  {
  }

  /** The last row that still has a letter of its own: the next one prints U+FFFD again. */
  const LAST_ROW := 55232

  lemma RowCharInjective(row: int, row': int)
    requires 1 <= row <= LAST_ROW && 1 <= row' <= LAST_ROW && RowChar(row) == RowChar(row')
    ensures row == row'
  {
    RowCharIsRune(row);
    RowCharIsRune(row');
  }

  lemma RowCharIsRune(row: int)
    requires 1 <= row <= LAST_ROW
    ensures RowChar(row) as int == if row < LAST_ROW then 64 + row else 0xFFFD
  {
  }

  /** Labels determine column and row, as far as the row letters differ. */
  lemma LabelInjective(col: int, row: int, col': int, row': int)
    requires 1 <= row <= LAST_ROW && 1 <= row' <= LAST_ROW
    requires LabelFor(col, row) == LabelFor(col', row')
    ensures col == col' && row == row'
  {
    hide Decimal, RowChar;
    var s, t := LabelFor(col, row), LabelFor(col', row');
    assert s[..|s| - 1] == Decimal(col) && t[..|t| - 1] == Decimal(col');
    DecimalInjective(col, col');
    assert s[|s| - 1] == t[|t| - 1];
    RowCharInjective(row, row');
  }

  /** Two cells of one grid never share a label exactly when it has at most 55232 rows. */
  lemma LabelsDifferIff(rows: int)
    ensures (forall col, row, col', row' ::
               1 <= row <= rows && 1 <= row' <= rows && LabelFor(col, row) == LabelFor(col', row') ==> col == col' && row == row') <==>
              rows <= LAST_ROW
  {
    hide LabelFor;
    if rows <= LAST_ROW {
      forall col, row, col', row' | 1 <= row <= rows && 1 <= row' <= rows && LabelFor(col, row) == LabelFor(col', row')
        ensures col == col' && row == row'
      {
        LabelInjective(col, row, col', row');
      }
    } else {
      LabelsRunOut();
    }
  }

  lemma LabelsRunOut()
    ensures LabelFor(1, LAST_ROW) == LabelFor(1, LAST_ROW + 1)
  {
  }
}
