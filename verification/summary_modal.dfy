/**
 * The end-of-turn report: the "next turn" caption it derives by reading
 * the year and month back out of the turn identifier, and the height of
 * its before/after bars. JavaScript's `NaN` from an unreadable number is
 * modelled as `None`, and renders as the text "NaN".
 */
module SummaryModal {
  import opened Types
  import Calendar
  import Turn

  /** `s.split(sep)` for a one-character separator: the pieces between separators, empty ones included. */
  function Split(s: string, sep: char): (r: seq<string>)
    ensures |r| >= 1
    ensures |r| == 1 <==> sep !in s
  {
    if |s| == 0 then [""]
    else
      var rest := Split(s[1..], sep);
      assert sep in s <==> s[0] == sep || sep in s[1..];
      if s[0] == sep then [""] + rest else [[s[0]] + rest[0]] + rest[1..]
  }

  /** Text without the separator is one piece. */
  lemma {:induction false} SplitWithout(s: string, sep: char)
    requires sep !in s
    ensures Split(s, sep) == [s]
    decreases |s|
  {
    if |s| > 0 {
      SplitWithout(s[1..], sep);
      assert [s[0]] + s[1..] == s;
    }
  }

  /** Text with the separator exactly once splits into the parts before and after it. */
  lemma {:induction false} SplitOnce(a: string, b: string, sep: char)
    requires sep !in a && sep !in b
    ensures Split(a + [sep] + b, sep) == [a, b]
    decreases |a|
  {
    var s := a + [sep] + b;
    if |a| == 0 {
      assert s[1..] == b;
      SplitWithout(b, sep);
    } else {
      assert s[0] == a[0] && s[1..] == a[1..] + [sep] + b;
      SplitOnce(a[1..], b, sep);
      assert [a[0]] + a[1..] == a;
    }
  }

  /** The number of leading decimal digits. */
  function DigitRun(s: string): (n: nat)
    ensures n <= |s| && Calendar.AllDigits(s[..n])
    ensures n < |s| ==> !Calendar.IsDigit(s[n])
  {
    if |s| == 0 || !Calendar.IsDigit(s[0]) then 0
    else
      var n := DigitRun(s[1..]);
      assert s[..n + 1] == [s[0]] + s[1..][..n];
      n + 1
  }

  /** The value of a run of decimal digits, most significant first. */
  function DigitsValue(s: string): nat
    requires Calendar.AllDigits(s)
  {
    if |s| == 0 then 0
    else DigitsValue(s[..|s| - 1]) * 10 + Calendar.DigitValue(s[|s| - 1])
  }

  /** A sign `parseInt` accepts in front of the digits. */
  predicate IsSign(c: char) {
    c == '+' || c == '-'
  }

  /** The text after an optional leading sign. */
  function Unsigned(s: string): string {
    if |s| > 0 && IsSign(s[0]) then s[1..] else s
  }

  /** The value of the leading run of digits, 0 when there is none. */
  function LeadingValue(b: string): nat {
    DigitsValue(b[..DigitRun(b)])
  }

  /** `parseInt(s, 10)`: an optional sign, then the longest run of digits; None (NaN) when there is none. */
  function ParseInt(s: string): (r: Option<int>)
    ensures r.Some? <==> (exists k :: 0 <= k <= 1 && k < |s| && (k == 1 ==> IsSign(s[0])) && Calendar.IsDigit(s[k]))
    ensures r.Some? ==> r.value == (if s[0] == '-' then -(LeadingValue(Unsigned(s)) as int) else LeadingValue(Unsigned(s)))
  {
    var body := Unsigned(s);
    if DigitRun(body) == 0 then None
    else
      var magnitude: int := LeadingValue(body);
      Some(if s[0] == '-' then -magnitude else magnitude)
  }

  /** Reading back the decimal rendering of a natural number gives the number. */
  lemma {:induction false} DecimalRoundTrip(n: nat)
    ensures DigitsValue(Calendar.NatToDecimal(n)) == n
    decreases n
  {
    var s := Calendar.NatToDecimal(n);
    if n >= 10 {
      DecimalRoundTrip(n / 10);
      assert s[..|s| - 1] == Calendar.NatToDecimal(n / 10);
    }
  }

  /** A run of digits followed by anything that does not start with a digit is read up to its end. */
  lemma {:induction false} DigitRunStops(d: string, rest: string)
    requires Calendar.AllDigits(d)
    requires |rest| == 0 || !Calendar.IsDigit(rest[0])
    ensures DigitRun(d + rest) == |d|
    decreases |d|
  {
    if |d| > 0 {
      assert (d + rest)[1..] == d[1..] + rest;
      DigitRunStops(d[1..], rest);
    } else {
      assert d + rest == rest;
    }
  }

  /** A run of digits followed by a tail that does not continue it has the run's value as its leading value. */
  lemma LeadingValueStops(d: string, rest: string)
    requires Calendar.AllDigits(d)
    requires |rest| == 0 || !Calendar.IsDigit(rest[0])
    ensures DigitRun(d + rest) == |d|
    ensures LeadingValue(d + rest) == DigitsValue(d)
  {
    DigitRunStops(d, rest);
    assert (d + rest)[..|d|] == d;
  }

  /** Once the text after the sign starts with a digit, `parseInt` yields the signed leading value. */
  lemma ParseReads(s: string, c: char, b: string, v: nat)
    requires |s| >= 1 && s[0] == c && Unsigned(s) == b
    requires DigitRun(b) > 0 && LeadingValue(b) == v
    ensures ParseInt(s) == Some(if c == '-' then -(v as int) else v)
  {
  }

  /** A leading sign is the first character and is stripped. */
  lemma SignSplit(c: char, d: string, rest: string)
    requires IsSign(c)
    requires |d| >= 1 && Calendar.AllDigits(d)
    requires |rest| == 0 || !Calendar.IsDigit(rest[0])
    ensures var s := [c] + d + rest; s[0] == c && Unsigned(s) == d + rest
  {
    var s := [c] + d + rest;
    assert s[0] == c;
    assert s[1..] == d + rest;
  }

  /** `ParseReads` for text whose unsigned part is a run of digits `d` and a tail that does not continue it. */
  lemma ParseReadsRun(c: char, d: string, rest: string, s: string)
    requires |s| >= 1 && s[0] == c && Unsigned(s) == d + rest
    requires DigitRun(d + rest) == |d| >= 1
    requires LeadingValue(d + rest) == DigitsValue(d)
    ensures ParseInt(s) == Some(if c == '-' then -(DigitsValue(d) as int) else DigitsValue(d))
  {
    ParseReads(s, c, d + rest, DigitsValue(d));
  }

  /** `parseInt` of a sign, a run of digits and a tail that does not continue it. */
  lemma ParseSignPrefix(c: char, d: string, rest: string)
    requires IsSign(c)
    requires |d| >= 1 && Calendar.AllDigits(d)
    requires |rest| == 0 || !Calendar.IsDigit(rest[0])
    ensures ParseInt([c] + d + rest) == Some(if c == '-' then -(DigitsValue(d) as int) else DigitsValue(d))
  {
    var s := [c] + d + rest;
    SignSplit(c, d, rest);
    LeadingValueStops(d, rest);
    ParseReadsRun(c, d, rest, s);
  }

  /** `parseInt` of a run of digits and a tail that does not continue it. */
  lemma ParseDigitPrefix(d: string, rest: string)
    requires |d| >= 1 && Calendar.AllDigits(d)
    requires |rest| == 0 || !Calendar.IsDigit(rest[0])
    ensures ParseInt(d + rest) == Some(DigitsValue(d))
  {
    var s := d + rest;
    assert s[0] == d[0] && Calendar.IsDigit(d[0]);
    assert Unsigned(s) == s;
    assert s == d + rest;
    LeadingValueStops(d, rest);
    ParseReadsRun(d[0], d, rest, s);
  }

  /**
   * `parseInt` of an optional sign, a run of digits and a tail that does not
   * continue the run: the signed value of the digits, whatever the tail holds.
   */
  lemma ParseSignedPrefix(sign: string, d: string, rest: string)
    requires |sign| <= 1 && (|sign| == 1 ==> IsSign(sign[0]))
    requires |d| >= 1 && Calendar.AllDigits(d)
    requires |rest| == 0 || !Calendar.IsDigit(rest[0])
    ensures ParseInt(sign + d + rest) == Some(if sign == "-" then -(DigitsValue(d) as int) else DigitsValue(d))
  {
    if |sign| == 0 {
      assert sign + d + rest == d + rest;
      ParseDigitPrefix(d, rest);
    } else {
      assert sign == [sign[0]];
      ParseSignPrefix(sign[0], d, rest);
    }
  }

  /** `parseInt` reads all-digit text in full. */
  lemma ParseDigits(s: string)
    requires |s| >= 1 && Calendar.AllDigits(s)
    ensures ParseInt(s) == Some(DigitsValue(s))
  {
    assert Calendar.IsDigit(s[0]);
    assert !IsSign(s[0]);
    var n := DigitRun(s);
    assert n == |s|;
    assert s[..n] == s;
  }

  /** `String(x)` for a number that may be NaN. */
  function Render(x: Option<int>): string {
    match x
    case Some(v) => Calendar.IntToString(v)
    case None => "NaN"
  }

  function AddOne(x: Option<int>): Option<int> {
    match x
    case Some(v) => Some(v + 1)
    case None => None
  }

  /**
   * The caption for the coming turn: the year and month parsed out of the
   * identifier of the turn just played, advanced by one month (month 13
   * rolls over into January of the next year), rendered as an identifier.
   */
  function NextTurnCaption(identifierBefore: string): (c: string)
    ensures var parts := Split(identifierBefore, '-');
            |parts| >= 2 && ParseInt(parts[0]).Some? && ParseInt(parts[1]).Some? ==>
              var next := Calendar.NextMonth(ParseInt(parts[0]).value, ParseInt(parts[1]).value);
              c == Calendar.TurnIdentifier(next.0, next.1)
    ensures ParseInt(Split(identifierBefore, '-')[0]).None? ==> "NaN" <= c
  {
    var parts := Split(identifierBefore, '-');
    var year := ParseInt(parts[0]);
    var month := if |parts| >= 2 then ParseInt(parts[1]) else None;
    var nextMonth := AddOne(month);
    var rolls := nextMonth.Some? && nextMonth.value > 12;
    var (y, m) := if rolls then (AddOne(year), Some(1)) else (year, nextMonth);
    Render(y) + "-" + Calendar.PadStart(Render(m), 2, '0')
  }

  /** The padded month of an identifier has no separator and reads back as the month. */
  lemma MonthReadsBack(month: int)
    requires 1 <= month <= 12
    ensures var ms := Calendar.PadStart(Calendar.IntToString(month), 2, '0');
            '-' !in ms && ParseInt(ms) == Some(month)
  {
    var ms := Calendar.PadStart(Calendar.IntToString(month), 2, '0');
    Calendar.PaddedMonthDigits(month);
    assert '-' !in ms by {
      forall i | 0 <= i < |ms| ensures ms[i] != '-' {
        assert Calendar.IsDigit(ms[i]);
      }
    }
    ParseDigits(ms);
    assert ms[..1][..0] == [];
    assert DigitsValue(ms[..1]) == Calendar.DigitValue(ms[0]);
    assert DigitsValue(ms) == month;
  }

  /** The identifier of a non-negative year and a calendar month splits into two pieces that read back as both. */
  lemma IdentifierReadsBack(year: int, month: int)
    requires year >= 0 && 1 <= month <= 12
    ensures var parts := Split(Calendar.TurnIdentifier(year, month), '-');
            |parts| == 2 && ParseInt(parts[0]) == Some(year) && ParseInt(parts[1]) == Some(month)
  {
    var ys := Calendar.NatToDecimal(year);
    var ms := Calendar.PadStart(Calendar.IntToString(month), 2, '0');
    MonthReadsBack(month);
    assert '-' !in ys by {
      forall i | 0 <= i < |ys| ensures ys[i] != '-' {
        assert Calendar.IsDigit(ys[i]);
      }
    }
    assert Calendar.TurnIdentifier(year, month) == ys + ['-'] + ms;
    SplitOnce(ys, ms, '-');
    DecimalRoundTrip(year);
    ParseDigits(ys);
  }

  /** For every non-negative year and calendar month the caption names the month after. */
  lemma CaptionRoundTrip(year: int, month: int)
    requires year >= 0 && 1 <= month <= 12
    ensures NextTurnCaption(Calendar.TurnIdentifier(year, month))
            == Calendar.TurnIdentifier(Calendar.NextMonth(year, month).0, Calendar.NextMonth(year, month).1)
  {
    IdentifierReadsBack(year, month);
  }

  /** The report shows, as the next turn, the identifier the commit then moves to. */
  lemma CaptionMatchesCommit(s: GameState, event: Option<MiniEvent>)
    requires "economy" in s.metrics && !Turn.EndTurnBlocked(s)
    requires s.year >= 0 && 1 <= s.month <= 12
    requires s.turnIdentifier == Calendar.TurnIdentifier(s.year, s.month)
    ensures NextTurnCaption(Turn.EndTurn(s, event).summary.value.turnIdentifierBefore)
            == Turn.Commit(Turn.EndTurn(s, event)).turnIdentifier
  {
    CaptionRoundTrip(s.year, s.month);
  }

  /** The tallest bar, in pixels. */
  const BAR_MAX_HEIGHT: real := 80.0

  /** `getBarHeight`: the value as a share of the scale, clamped to the bar's pixel range; 0 on a zero scale. */
  function BarHeight(value: real, maxValue: real): (h: real)
    ensures 0.0 <= h <= BAR_MAX_HEIGHT
    ensures maxValue == 0.0 ==> h == 0.0
    ensures maxValue > 0.0 && 0.0 <= value <= maxValue ==> h * maxValue == value * BAR_MAX_HEIGHT
  {
    if maxValue == 0.0 then 0.0
    else
      var scaled := value / maxValue * BAR_MAX_HEIGHT;
      Max(0.0, if scaled < BAR_MAX_HEIGHT then scaled else BAR_MAX_HEIGHT)
  }

  /** On a positive scale a larger value never draws a shorter bar. */
  lemma BarHeightMonotone(a: real, b: real, maxValue: real)
    requires maxValue > 0.0 && a <= b
    ensures BarHeight(a, maxValue) <= BarHeight(b, maxValue)
  {
    assert a / maxValue <= b / maxValue;
  }
}
