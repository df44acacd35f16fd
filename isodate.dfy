/** The text form of dates: `strftime('%Y-%m-01')` on the generated month-ends, and the
    ISO form `'YYYY-MM-DD'` that `pd.to_datetime` parses for the target date. */
module IsoDate {
  import opened Wrappers
  import opened Calendar

  predicate IsDigit(c: char) {
    '0' <= c <= '9'
  }

  function DigitChar(n: int): (c: char)
    requires 0 <= n <= 9
    ensures IsDigit(c)
  {
    ('0' as int + n) as char
  }

  function DigitValue(c: char): (n: int)
    requires IsDigit(c)
    ensures 0 <= n <= 9
  {
    c as int - '0' as int
  }

  /** `%m` and `%d`: two digits, zero-padded. */
  function Pad2(n: int): (s: string)
    requires 0 <= n <= 99
  {
    [DigitChar(n / 10), DigitChar(n % 10)]
  }

  /** `%Y` for the four-digit years pandas timestamps can hold. */
  function Pad4(n: int): (s: string)
    requires 0 <= n <= 9999
  {
    [DigitChar(n / 1000), DigitChar(n / 100 % 10), DigitChar(n / 10 % 10), DigitChar(n % 10)]
  }

  predicate FourDigitYear(d: Date) {
    0 <= d.year <= 9999
  }

  function FormatDate(d: Date): (s: string)
    requires ValidDate(d) && FourDigitYear(d)
  {
    Pad4(d.year) + "-" + Pad2(d.month) + "-" + Pad2(d.day)
  }

  /** `strftime('%Y-%m-01')` applied to any day of month `k`. */
  function FormatMonthStart(k: int): (s: string)
    requires 0 <= YearOf(k) <= 9999
    ensures |s| == 10
  {
    FormatDate(FirstDay(k))
  }

  predicate DigitsAt(s: string, lo: int, hi: int)
    requires 0 <= lo <= hi <= |s|
  {
    forall i :: lo <= i < hi ==> IsDigit(s[i])
  }

  function Number2(a: char, b: char): (n: int)
    requires IsDigit(a) && IsDigit(b)
    ensures 0 <= n <= 99
  {
    10 * DigitValue(a) + DigitValue(b)
  }

  function Number4(a: char, b: char, c: char, d: char): (n: int)
    requires IsDigit(a) && IsDigit(b) && IsDigit(c) && IsDigit(d)
    ensures 0 <= n <= 9999
  {
    100 * Number2(a, b) + Number2(c, d)
  }

  /** `pd.to_datetime` on the ISO form: exactly `YYYY-MM-DD` naming a real calendar day. */
  function ParseIsoDate(s: string): (r: Option<Date>)
    ensures r.Some? ==> ValidDate(r.value) && FourDigitYear(r.value)
  {
    if |s| == 10 && s[4] == '-' && s[7] == '-'
       && DigitsAt(s, 0, 4) && DigitsAt(s, 5, 7) && DigitsAt(s, 8, 10)
    then
      var y := Number4(s[0], s[1], s[2], s[3]);
      var m := Number2(s[5], s[6]);
      var d := Number2(s[8], s[9]);
      if 1 <= m <= 12 && 1 <= d <= DaysInMonth(y, m) then Some(Date(y, m, d)) else None
    else
      None
  }

  lemma Pad2Digits(n: int)
    requires 0 <= n <= 99
    ensures |Pad2(n)| == 2 && Number2(Pad2(n)[0], Pad2(n)[1]) == n
  {
  }

  lemma Pad4Digits(n: int)
    requires 0 <= n <= 9999
    ensures |Pad4(n)| == 4 && Number4(Pad4(n)[0], Pad4(n)[1], Pad4(n)[2], Pad4(n)[3]) == n
  {
    var a, r1 := n / 1000, n % 1000;
    var b, r2 := r1 / 100, r1 % 100;
    var c, d := r2 / 10, r2 % 10;
    var ca, cb, cc, cd := DigitChar(a), DigitChar(b), DigitChar(c), DigitChar(d);
    assert Number4(ca, cb, cc, cd) == n;
    Pad4Number(ca, cb, cc, cd);
  }

  /** Formatting a date and parsing it back gives the date. */
  lemma {:induction false} ParseFormat(d: Date)
    requires ValidDate(d) && FourDigitYear(d)
    ensures ParseIsoDate(FormatDate(d)) == Some(d)
  {
    var s := FormatDate(d);
    Pad4Digits(d.year);
    Pad2Digits(d.month);
    Pad2Digits(d.day);
    assert s[0..4] == Pad4(d.year);
    assert s[5..7] == Pad2(d.month);
    assert s[8..10] == Pad2(d.day);
  }

  lemma DigitRoundTrip(c: char)
    requires IsDigit(c)
    ensures DigitChar(DigitValue(c)) == c
  {
  }

  lemma {:induction false} Pad2Number(a: char, b: char)
    requires IsDigit(a) && IsDigit(b)
    ensures Pad2(Number2(a, b)) == [a, b]
  {
    DigitRoundTrip(a);
    DigitRoundTrip(b);
  }

  lemma DivMod10(n: int, q: int, r: int)
    requires 0 <= r < 10 && n == 10 * q + r
    ensures n / 10 == q && n % 10 == r
  {
  }

  lemma {:induction false} Pad4Number(a: char, b: char, c: char, d: char)
    requires IsDigit(a) && IsDigit(b) && IsDigit(c) && IsDigit(d)
    ensures Pad4(Number4(a, b, c, d)) == [a, b, c, d]
  {
    DigitRoundTrip(a);
    DigitRoundTrip(b);
    DigitRoundTrip(c);
    DigitRoundTrip(d);
    var va, vb, vc, vd := DigitValue(a), DigitValue(b), DigitValue(c), DigitValue(d);
    var n := Number4(a, b, c, d);
    assert n == 1000 * va + 100 * vb + 10 * vc + vd;
    assert n / 1000 == va;
    assert n / 100 == 10 * va + vb;
    DivMod10(10 * va + vb, va, vb);
    assert n / 10 == 100 * va + 10 * vb + vc;
    DivMod10(100 * va + 10 * vb + vc, 10 * va + vb, vc);
    DivMod10(n, 100 * va + 10 * vb + vc, vd);
  }

  /** Every string the parser accepts is the canonical text of the date it yields. */
  lemma {:induction false} FormatParse(s: string)
    requires ParseIsoDate(s).Some?
    ensures FormatDate(ParseIsoDate(s).value) == s
  {
    assert IsDigit(s[0]) && IsDigit(s[1]) && IsDigit(s[2]) && IsDigit(s[3]);
    assert IsDigit(s[5]) && IsDigit(s[6]) && IsDigit(s[8]) && IsDigit(s[9]);
    Pad4Number(s[0], s[1], s[2], s[3]);
    Pad2Number(s[5], s[6]);
    Pad2Number(s[8], s[9]);
    assert s == [s[0], s[1], s[2], s[3]] + "-" + [s[5], s[6]] + "-" + [s[8], s[9]];
  }

  /** Two months have the same `'%Y-%m-01'` text only when they are the same month. */
  lemma {:induction false} FormatMonthStartInjective(j: int, k: int)
    requires 0 <= YearOf(j) <= 9999 && 0 <= YearOf(k) <= 9999
    requires FormatMonthStart(j) == FormatMonthStart(k)
    ensures j == k
  {
    ParseFormat(FirstDay(j));
    ParseFormat(FirstDay(k));
  }
}
