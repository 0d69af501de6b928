/**
 * Turn identifiers and the calendar advance. A turn identifier is the text
 * `"<year>-<month, zero-padded to two characters>"`, as JavaScript renders
 * the template `${year}-${String(month).padStart(2, '0')}`.
 */
module Calendar {

  predicate IsDigit(c: char) {
    '0' <= c <= '9'
  }

  predicate AllDigits(s: string) {
    forall i :: 0 <= i < |s| ==> IsDigit(s[i])
  }

  function DigitValue(c: char): (d: nat)
    requires IsDigit(c)
    ensures d < 10
  {
    (c as int - '0' as int) as nat
  }

  function DigitChar(d: nat): (c: char)
    requires d < 10
    ensures IsDigit(c) && DigitValue(c) == d
  {
    ('0' as int + d) as char
  }

  /** The decimal rendering of a natural number, without leading zeros. */
  function NatToDecimal(n: nat): (s: string)
    ensures |s| >= 1 && AllDigits(s)
    ensures n < 10 <==> |s| == 1
    ensures |s| > 1 ==> s[0] != '0'
  {
    if n < 10 then [DigitChar(n)]
    else NatToDecimal(n / 10) + [DigitChar(n % 10)]
  }

  /** `String(x)` for an integer-valued JavaScript number. */
  function IntToString(x: int): string {
    if x < 0 then "-" + NatToDecimal(-x) else NatToDecimal(x)
  }

  /** `s.padStart(width, pad)` */
  function PadStart(s: string, width: nat, pad: char): (r: string)
    ensures |s| >= width ==> r == s
    ensures |s| < width ==> |r| == width && r[width - |s|..] == s
    ensures forall i :: 0 <= i < |r| - |s| ==> r[i] == pad
    decreases width - |s|
  {
    if |s| >= width then s else PadStart([pad] + s, width, pad)
  }

  /** `generateTurnIdentifier(year, month)` */
  function TurnIdentifier(year: int, month: int): string {
    IntToString(year) + "-" + PadStart(IntToString(month), 2, '0')
  }

  /** The month after `(year, month)`: month 12 rolls over to month 1 of the next year. */
  function NextMonth(year: int, month: int): (r: (int, int))
    ensures month >= 12 ==> r == (year + 1, 1)
    ensures month < 12 ==> r == (year, month + 1)
  {
    if month + 1 > 12 then (year + 1, 1) else (year, month + 1)
  }

  /** The rendering of a month in 0..99 is two digits with the month's value. */
  lemma PaddedMonthDigits(month: int)
    requires 0 <= month < 100
    ensures var p := PadStart(IntToString(month), 2, '0');
            |p| == 2 && AllDigits(p) && DigitValue(p[0]) * 10 + DigitValue(p[1]) == month
  {
    var s := NatToDecimal(month);
    assert IntToString(month) == s;
    if month < 10 {
      assert s == [DigitChar(month)];
      assert PadStart(s, 2, '0') == ['0'] + s;
    } else {
      var tens, units := month / 10, month % 10;
      assert month == tens * 10 + units && tens < 10;
      assert NatToDecimal(tens) == [DigitChar(tens)];
      assert s == [DigitChar(tens), DigitChar(units)];
      assert PadStart(s, 2, '0') == s;
    }
  }
}
