/**
 * Month keys: parsing and canonicalising "YYYY-MM" (`_norm_month`) and enumerating
 * an inclusive range of months (`_month_iter`).
 */
module Months {
  import opened Wrappers

  /** A calendar month, as a datetime built from "%Y-%m" holds it. */
  datatype YearMonth = YearMonth(year: int, month: int)

  /** The months a datetime can represent (MINYEAR is 1, MAXYEAR is 9999). */
  predicate ValidMonth(ym: YearMonth) {
    1 <= ym.year <= 9999 && 1 <= ym.month <= 12
  }

  predicate IsDigit(c: char) {
    '0' <= c <= '9'
  }

  function DigitValue(c: char): int
    requires IsDigit(c)
  {
    c as int - '0' as int
  }

  function DigitChar(d: int): (c: char)
    requires 0 <= d < 10
    ensures IsDigit(c) && DigitValue(c) == d
  {
    ('0' as int + d) as char
  }

  /** The decimal digits of n, without leading zeros. */
  function Decimal(n: nat): string {
    if n < 10 then [DigitChar(n)] else Decimal(n / 10) + [DigitChar(n % 10)]
  }

  function Zeros(k: int): string
    decreases k
  {
    if k <= 0 then "" else "0" + Zeros(k - 1)
  }

  /** Python's f"{n:0{width}d}": n in decimal, left-padded with '0' to width characters, the sign included. */
  function ZeroPad(n: int, width: nat): string {
    if n >= 0 then Zeros(width - |Decimal(n)|) + Decimal(n)
    else "-" + Zeros(width - 1 - |Decimal(-n)|) + Decimal(-n)
  }

  /** f"{year:04d}-{month:02d}": the key under which a month is stored. */
  function MonthKey(year: int, month: int): string {
    ZeroPad(year, 4) + "-" + ZeroPad(month, 2)
  }

  function FormatMonth(ym: YearMonth): string {
    MonthKey(ym.year, ym.month)
  }

  /** The one-digit spelling "YYYY-M" that "%m" also accepts for months 1 to 9. */
  function ShortKey(ym: YearMonth): string
    requires 1 <= ym.month <= 9
  {
    ZeroPad(ym.year, 4) + "-" + [DigitChar(ym.month)]
  }

  /** A canonical month key: four digits not all zero, '-', then 01 to 12. */
  predicate IsMonthKey(k: string) {
    && |k| == 7
    && IsDigit(k[0]) && IsDigit(k[1]) && IsDigit(k[2]) && IsDigit(k[3])
    && !(k[0] == '0' && k[1] == '0' && k[2] == '0' && k[3] == '0')
    && k[4] == '-'
    && ((k[5] == '0' && '1' <= k[6] <= '9') || (k[5] == '1' && '0' <= k[6] <= '2'))
  }

  function Year4(s: string): int
    requires |s| >= 4 && IsDigit(s[0]) && IsDigit(s[1]) && IsDigit(s[2]) && IsDigit(s[3])
  {
    DigitValue(s[0]) * 1000 + DigitValue(s[1]) * 100 + DigitValue(s[2]) * 10 + DigitValue(s[3])
  }

  /**
   * datetime.strptime(s, "%Y-%m"): exactly four digits for the year, '-', a month
   * matching `1[0-2]|0[1-9]|[1-9]` (alternatives tried in that order), and nothing
   * after it; year 0 is out of datetime's range.
   */
  function ParseMonth(s: string): (r: Option<YearMonth>)
  {
    if !(|s| == 6 || |s| == 7) || !(IsDigit(s[0]) && IsDigit(s[1]) && IsDigit(s[2]) && IsDigit(s[3])) || s[4] != '-' then
      None
    else
      var year := Year4(s);
      var month :=
        if |s| == 6 then (if '1' <= s[5] <= '9' then DigitValue(s[5]) else 0)
        else if s[5] == '1' && '0' <= s[6] <= '2' then 10 + DigitValue(s[6])
        else if s[5] == '0' && '1' <= s[6] <= '9' then DigitValue(s[6])
        else 0;
      if year >= 1 && month != 0 then Some(YearMonth(year, month)) else None
  }

  /** `_norm_month`: the canonical zero-padded key of a month string, or InvalidFormat. */
  function NormMonth(s: string): (r: Result<string, Error>)
    ensures r.Failure? ==> r.error == InvalidFormat
    ensures r.Success? <==> ParseMonth(s).Some?
  {
    match ParseMonth(s)
    case None => Failure(InvalidFormat)
    case Some(ym) => Success(FormatMonth(ym))
  }

  /** The four digits of n, most significant first. */
  function Digits4(n: int): seq<int>
    requires 0 <= n <= 9999
  {
    [n / 1000, n / 100 % 10, n / 10 % 10, n % 10]
  }

  lemma Digits4Value(n: int)
    requires 0 <= n <= 9999
    ensures var d := Digits4(n);
      && (forall i :: 0 <= i < 4 ==> 0 <= d[i] < 10)
      && d[0] * 1000 + d[1] * 100 + d[2] * 10 + d[3] == n
  {
    var q1 := n / 10;
    var q2 := q1 / 10;
    assert n == 10 * q1 + n % 10;
    assert q1 == 10 * q2 + q1 % 10;
    assert q2 / 10 == n / 1000;
    assert q2 == n / 100;
    assert q2 == 10 * (n / 1000) + q2 % 10;
  }

  lemma ZeroPad4(n: int)
    requires 0 <= n <= 9999
    ensures var d := Digits4(n);
      ZeroPad(n, 4) == [DigitChar(d[0]), DigitChar(d[1]), DigitChar(d[2]), DigitChar(d[3])]
  {
    Digits4Value(n);
    var q1 := n / 10;
    var q2 := q1 / 10;
    assert q2 == n / 100 && q2 / 10 == n / 1000;
    if n < 10 {
      assert Zeros(3) == "000";
    } else if n < 100 {
      assert Decimal(n) == Decimal(q1) + [DigitChar(n % 10)];
      assert Zeros(2) == "00";
    } else if n < 1000 {
      assert Decimal(q1) == Decimal(q2) + [DigitChar(q1 % 10)];
      assert Zeros(1) == "0";
    } else {
      assert Decimal(q1) == Decimal(q2) + [DigitChar(q1 % 10)];
      assert Decimal(q2) == Decimal(q2 / 10) + [DigitChar(q2 % 10)];
    }
  }

  lemma ZeroPad2(n: int)
    requires 0 <= n <= 99
    ensures ZeroPad(n, 2) == [DigitChar(n / 10), DigitChar(n % 10)]
  {
    if n < 10 {
      assert Zeros(1) == "0";
    } else {
      assert Decimal(n) == [DigitChar(n / 10), DigitChar(n % 10)];
    }
  }

  /** A number of five or more digits is written with at least five characters. */
  lemma DecimalLong(n: nat)
    requires n >= 10000
    ensures |Decimal(n)| >= 5
  {
    var q1 := n / 10;
    var q2 := q1 / 10;
    var q3 := q2 / 10;
    var q4 := q3 / 10;
    assert q4 >= 1;
    assert |Decimal(q3)| == |Decimal(q4)| + 1;
    assert |Decimal(q2)| == |Decimal(q3)| + 1;
    assert |Decimal(q1)| == |Decimal(q2)| + 1;
    assert |Decimal(n)| == |Decimal(q1)| + 1;
  }

  /**
   * The key f"{year:04d}-{month:02d}" of a year outside 1..9999 is not a canonical
   * key: it is longer, starts with '-', or has year "0000".
   */
  lemma OutOfRangeKey(year: int, month: int)
    requires 1 <= month <= 12 && !(1 <= year <= 9999)
    ensures !IsMonthKey(MonthKey(year, month))
  {
    var k := MonthKey(year, month);
    ZeroPad2(month);
    if year >= 10000 {
      DecimalLong(year);
      assert |ZeroPad(year, 4)| >= 5;
      assert |k| >= 8;
    } else if year == 0 {
      assert ZeroPad(year, 4) == "0000" by {
        assert Zeros(3) == "000";
      }
      assert k[0] == '0' && k[1] == '0' && k[2] == '0' && k[3] == '0';
    } else {
      assert k[0] == '-';
    }
  }

  /** The canonical key of a valid month, character by character. */
  lemma FormatChars(ym: YearMonth)
    requires ValidMonth(ym)
    ensures var d := Digits4(ym.year);
      FormatMonth(ym) == [DigitChar(d[0]), DigitChar(d[1]), DigitChar(d[2]), DigitChar(d[3]), '-',
                          DigitChar(ym.month / 10), DigitChar(ym.month % 10)]
  {
    ZeroPad4(ym.year);
    ZeroPad2(ym.month);
  }

  /** Four digit characters read back as the number they spell. */
  lemma Year4Chars(n: int, s: string)
    requires 0 <= n <= 9999 && |s| >= 4
    requires var d := Digits4(n); s[0] == DigitChar(d[0]) && s[1] == DigitChar(d[1]) && s[2] == DigitChar(d[2]) && s[3] == DigitChar(d[3])
    ensures IsDigit(s[0]) && IsDigit(s[1]) && IsDigit(s[2]) && IsDigit(s[3])
    ensures Year4(s) == n
  {
    Digits4Value(n);
  }

  /** Reading four digits and writing them back gives the same characters. */
  lemma Year4Digits(s: string)
    requires |s| >= 4 && IsDigit(s[0]) && IsDigit(s[1]) && IsDigit(s[2]) && IsDigit(s[3])
    ensures 0 <= Year4(s) <= 9999
    ensures var d := Digits4(Year4(s)); s[0] == DigitChar(d[0]) && s[1] == DigitChar(d[1]) && s[2] == DigitChar(d[2]) && s[3] == DigitChar(d[3])
  {
    var a, b, c, e := DigitValue(s[0]), DigitValue(s[1]), DigitValue(s[2]), DigitValue(s[3]);
    var n := Year4(s);
    assert n == 10 * (100 * a + 10 * b + c) + e;
    assert n / 10 == 100 * a + 10 * b + c && n % 10 == e;
    assert n / 100 == 10 * a + b && n / 10 % 10 == c;
    assert n / 1000 == a && n / 100 % 10 == b;
  }

  /** Every valid month formats to a canonical key that parses back to it. */
  lemma {:induction false} FormatParse(ym: YearMonth)
    requires ValidMonth(ym)
    ensures IsMonthKey(FormatMonth(ym))
    ensures ParseMonth(FormatMonth(ym)) == Some(ym)
  {
    var d := Digits4(ym.year);
    Digits4Value(ym.year);
    FormatChars(ym);
    var k := FormatMonth(ym);
    Year4Chars(ym.year, k);
    assert |k| == 7 && k[4] == '-';
    if ym.month >= 10 {
      assert ym.month / 10 == 1 && ym.month % 10 <= 2;
      assert k[5] == '1' && '0' <= k[6] <= '2';
      assert 10 + DigitValue(k[6]) == ym.month;
    } else {
      assert ym.month / 10 == 0 && ym.month % 10 == ym.month;
      assert k[5] == '0' && '1' <= k[6] <= '9';
      assert DigitValue(k[6]) == ym.month;
    }
    assert d[0] != 0 || d[1] != 0 || d[2] != 0 || d[3] != 0;
    assert k[0] != '0' || k[1] != '0' || k[2] != '0' || k[3] != '0';
  }

  /** The one-digit spelling of months 1 to 9 parses to the same month. */
  lemma {:induction false} ShortParse(ym: YearMonth)
    requires ValidMonth(ym) && ym.month <= 9
    ensures ParseMonth(ShortKey(ym)) == Some(ym)
  {
    ZeroPad4(ym.year);
    var k := ShortKey(ym);
    Year4Chars(ym.year, k);
    assert |k| == 6 && k[4] == '-' && k[5] == DigitChar(ym.month);
  }

  /** What a successful parse says about the characters of s. */
  lemma ParseMonthChars(s: string)
    requires ParseMonth(s).Some?
    ensures var ym := ParseMonth(s).value;
      && ValidMonth(ym)
      && (|s| == 6 || |s| == 7) && IsDigit(s[0]) && IsDigit(s[1]) && IsDigit(s[2]) && IsDigit(s[3])
      && s[4] == '-' && Year4(s) == ym.year
      && (|s| == 6 ==> ym.month <= 9 && s[5] == DigitChar(ym.month))
      && (|s| == 7 ==> s[5] == DigitChar(ym.month / 10) && s[6] == DigitChar(ym.month % 10))
  {
    Year4Digits(s);
  }

  /**
   * A string is accepted exactly when it is the canonical or the one-digit spelling of
   * a valid month; the result is that month's canonical key, which is itself accepted
   * unchanged.
   */
  lemma {:induction false} NormMonthSound(s: string)
    requires NormMonth(s).Success?
    ensures ParseMonth(s).Some? && ValidMonth(ParseMonth(s).value)
    ensures var ym := ParseMonth(s).value;
      && NormMonth(s).value == FormatMonth(ym)
      && (s == FormatMonth(ym) || (ym.month <= 9 && s == ShortKey(ym)))
    ensures IsMonthKey(NormMonth(s).value)
    ensures NormMonth(NormMonth(s).value) == NormMonth(s)
  {
    var ym := ParseMonth(s).value;
    ParseMonthChars(s);
    Year4Digits(s);
    FormatParse(ym);
    if |s| == 7 {
      FormatChars(ym);
      var f := FormatMonth(ym);
      assert forall i :: 0 <= i < 7 ==> s[i] == f[i];
      assert s == f;
    } else {
      ZeroPad4(ym.year);
      var f := ShortKey(ym);
      assert forall i :: 0 <= i < 6 ==> s[i] == f[i];
      assert s == f;
    }
  }

  lemma {:induction false} NormMonthComplete(ym: YearMonth)
    requires ValidMonth(ym)
    ensures NormMonth(FormatMonth(ym)) == Success(FormatMonth(ym))
    ensures ym.month <= 9 ==> NormMonth(ShortKey(ym)) == Success(FormatMonth(ym))
  {
    FormatParse(ym);
    if ym.month <= 9 {
      ShortParse(ym);
    }
  }

  /** A canonical key is accepted and returned unchanged. */
  lemma {:induction false} NormMonthKey(k: string)
    requires IsMonthKey(k)
    ensures NormMonth(k) == Success(k)
  {
    var ym := ParseMonth(k).value;
    NormMonthSound(k);
  }

  /** Months counted from year 0 month 1; consecutive months have consecutive ordinals. */
  function Ordinal(ym: YearMonth): int {
    ym.year * 12 + ym.month - 1
  }

  /** One step of `_month_iter`: the next month, rolling month 12 over to month 1 of the next year. */
  function NextMonth(ym: YearMonth): (r: YearMonth)
    ensures 1 <= ym.month <= 12 ==> 1 <= r.month <= 12 && Ordinal(r) == Ordinal(ym) + 1
  {
    if ym.month + 1 > 12 then YearMonth(ym.year + 1, 1) else YearMonth(ym.year, ym.month + 1)
  }

  /** The month k steps after ym. */
  function After(ym: YearMonth, k: nat): (r: YearMonth)
    ensures 1 <= ym.month <= 12 ==> 1 <= r.month <= 12 && Ordinal(r) == Ordinal(ym) + k
  {
    if k == 0 then ym else NextMonth(After(ym, k - 1))
  }

  /** Two months with the same ordinal are the same month. */
  lemma OrdinalInjective(x: YearMonth, y: YearMonth)
    requires 1 <= x.month <= 12 && 1 <= y.month <= 12 && Ordinal(x) == Ordinal(y)
    ensures x == y
  {
    assert 12 * (x.year - y.year) == y.month - x.month;
  }

  /**
   * Ordinals compare as datetimes do: by year, then by month. So `Ordinal(a) > Ordinal(b)`
   * is the comparison `start > end` of `_month_iter`.
   */
  lemma OrdinalOrder(x: YearMonth, y: YearMonth)
    requires 1 <= x.month <= 12 && 1 <= y.month <= 12
    ensures Ordinal(x) < Ordinal(y) <==> x.year < y.year || (x.year == y.year && x.month < y.month)
  {
    if x.year < y.year {
      assert Ordinal(y) - Ordinal(x) == 12 * (y.year - x.year) + y.month - x.month;
    } else if x.year > y.year {
      assert Ordinal(x) - Ordinal(y) == 12 * (x.year - y.year) + x.month - y.month;
    }
  }

  /** A month that lies between two valid months is valid. */
  lemma BetweenValid(a: YearMonth, b: YearMonth, ym: YearMonth)
    requires ValidMonth(a) && ValidMonth(b) && 1 <= ym.month <= 12
    requires Ordinal(a) <= Ordinal(ym) <= Ordinal(b)
    ensures ValidMonth(ym)
  {
    assert 12 * (ym.year - a.year) > -12;
    assert 12 * (b.year - ym.year) > -12;
  }

  /** The keys of the n months starting at a, in order. */
  function MonthsFrom(a: YearMonth, n: nat): (ms: seq<string>)
    ensures |ms| == n
  {
    if n == 0 then [] else MonthsFrom(a, n - 1) + [FormatMonth(After(a, n - 1))]
  }

  lemma {:induction false} MonthsFromAt(a: YearMonth, n: nat, i: int)
    requires 0 <= i < n
    ensures MonthsFrom(a, n)[i] == FormatMonth(After(a, i))
  {
    if i < n - 1 {
      MonthsFromAt(a, n - 1, i);
    } else {
      assert After(a, i) == After(a, n - 1);
    }
  }

  /**
   * The reference for `_month_iter`: InvalidFormat when either end does not parse,
   * InvalidRange when the start lies after the end, else the key of every month
   * from the start to the end inclusive.
   */
  function MonthRange(fromMonth: string, toMonth: string): Result<seq<string>, Error> {
    match (ParseMonth(fromMonth), ParseMonth(toMonth))
    case (None, _) => Failure(InvalidFormat)
    case (_, None) => Failure(InvalidFormat)
    case (Some(a), Some(b)) =>
      if Ordinal(a) > Ordinal(b) then Failure(InvalidRange)
      else Success(MonthsFrom(a, Ordinal(b) - Ordinal(a) + 1))
  }

  /** `_month_iter`: parses both ends, refuses a reversed range, then walks from one to the other. */
  method MonthIter(fromMonth: string, toMonth: string) returns (r: Result<seq<string>, Error>)
    ensures r == MonthRange(fromMonth, toMonth)
  {
    var start := ParseMonth(fromMonth);
    if start.None? {
      return Failure(InvalidFormat);
    }
    var end := ParseMonth(toMonth);
    if end.None? {
      return Failure(InvalidFormat);
    }
    var a, b := start.value, end.value;
    if Ordinal(a) > Ordinal(b) {
      return Failure(InvalidRange);
    }
    ParseMonthChars(fromMonth);
    ParseMonthChars(toMonth);
    var months := WalkMonths(a, b);
    r := Success(months);
  }

  /** Proof step for WalkMonths: one more step from the month (y, m) reached after n steps appends that month's key. */
  lemma WalkStep(a: YearMonth, y: int, m: int, n: nat, months: seq<string>)
    requires months == MonthsFrom(a, n) && YearMonth(y, m) == After(a, n)
    ensures After(a, n + 1) == NextMonth(YearMonth(y, m))
    ensures months + [MonthKey(y, m)] == MonthsFrom(a, n + 1)
  {
    assert FormatMonth(After(a, n)) == MonthKey(y, m);
  }

  /** Proof step for WalkMonths: when the loop exits, its n is exactly the number of months from a to b. */
  lemma WalkDone(a: YearMonth, b: YearMonth, n: nat, months: seq<string>)
    requires Ordinal(a) <= Ordinal(b) && n == Ordinal(b) - Ordinal(a) + 1
    requires months == MonthsFrom(a, n)
    ensures months == MonthsFrom(a, Ordinal(b) - Ordinal(a) + 1)
  {
  }

  /** The loop of `_month_iter`: steps (year, month) from a to b, rolling month 12 over to 1. */
  method WalkMonths(a: YearMonth, b: YearMonth) returns (months: seq<string>)
    requires 1 <= a.month <= 12 && 1 <= b.month <= 12 && Ordinal(a) <= Ordinal(b)
    ensures months == MonthsFrom(a, Ordinal(b) - Ordinal(a) + 1)
  {
    months := [];
    var curY, curM := a.year, a.month;
    ghost var n := 0;
    while curY < b.year || (curY == b.year && curM <= b.month)
      invariant 1 <= curM <= 12 && n == |months|
      invariant YearMonth(curY, curM) == After(a, n)
      invariant Ordinal(a) + n <= Ordinal(b) + 1
      invariant months == MonthsFrom(a, n)
      decreases Ordinal(b) - Ordinal(YearMonth(curY, curM))
    {
      WalkStep(a, curY, curM, n, months);
      months := months + [MonthKey(curY, curM)];
      curM := curM + 1;
      if curM > 12 {
        curM := 1;
        curY := curY + 1;
      }
      n := n + 1;
    }
    WalkDone(a, b, n, months);
  }

  /** ms is the list of keys from month a to month b, both valid and in order. */
  ghost predicate Spans(a: YearMonth, b: YearMonth, ms: seq<string>) {
    && ValidMonth(a) && ValidMonth(b) && Ordinal(a) <= Ordinal(b)
    && ms == MonthsFrom(a, Ordinal(b) - Ordinal(a) + 1)
  }

  /** What a successful range is made of: both ends parse, in order, and the keys between them. */
  lemma MonthRangeValue(fromMonth: string, toMonth: string)
    requires MonthRange(fromMonth, toMonth).Success?
    ensures ParseMonth(fromMonth).Some? && ParseMonth(toMonth).Some?
    ensures var a, b := ParseMonth(fromMonth).value, ParseMonth(toMonth).value;
      && ValidMonth(a) && ValidMonth(b) && Ordinal(a) <= Ordinal(b)
      && MonthRange(fromMonth, toMonth) == Success(MonthsFrom(a, Ordinal(b) - Ordinal(a) + 1))
      && Spans(a, b, MonthRange(fromMonth, toMonth).value)
      && NormMonth(fromMonth) == Success(FormatMonth(a)) && NormMonth(toMonth) == Success(FormatMonth(b))
  {
    ParseMonthChars(fromMonth);
    ParseMonthChars(toMonth);
  }

  /** A key formatted from a valid month is canonical and parses back to that month. */
  lemma KeyFacts(k: string, ym: YearMonth)
    requires ValidMonth(ym) && k == FormatMonth(ym)
    ensures IsMonthKey(k) && ParseMonth(k) == Some(ym)
  {
    FormatParse(ym);
  }

  /** Proof step: rewrites a key under an equality of months, which the solver does not do inside FormatMonth on its own. */
  lemma SameKey(k: string, x: YearMonth, y: YearMonth)
    requires k == FormatMonth(x) && x == y
    ensures k == FormatMonth(y)
  {
  }

  /** The i-th key from a to b is the key of the month i steps after a. */
  lemma SpansAt(a: YearMonth, b: YearMonth, ms: seq<string>, i: int)
    requires Spans(a, b, ms) && 0 <= i < |ms|
    ensures ms[i] == FormatMonth(After(a, i))
  {
    MonthsFromAt(a, Ordinal(b) - Ordinal(a) + 1, i);
  }

  /** The i-th key from a to b is canonical and parses to the month i steps after a. */
  lemma BetweenKey(a: YearMonth, b: YearMonth, ms: seq<string>, i: int)
    requires Spans(a, b, ms) && 0 <= i < |ms|
    ensures IsMonthKey(ms[i]) && ParseMonth(ms[i]) == Some(After(a, i))
  {
    var x := After(a, i);
    SpansAt(a, b, ms, i);
    BetweenValid(a, b, x);
    KeyFacts(ms[i], x);
  }

  /** Every key from a to b is canonical, and each is the month after the one before it. */
  lemma BetweenSteps(a: YearMonth, b: YearMonth, ms: seq<string>)
    requires Spans(a, b, ms)
    ensures forall i :: 0 <= i < |ms| ==> IsMonthKey(ms[i]) && ParseMonth(ms[i]).Some?
    ensures forall i :: 0 < i < |ms| ==> ParseMonth(ms[i]).value == NextMonth(ParseMonth(ms[i - 1]).value)
  {
    forall i | 0 <= i < |ms| ensures IsMonthKey(ms[i]) && ParseMonth(ms[i]).Some? {
      BetweenKey(a, b, ms, i);
    }
    forall i | 0 < i < |ms| ensures ParseMonth(ms[i]).value == NextMonth(ParseMonth(ms[i - 1]).value) {
      BetweenKey(a, b, ms, i);
      BetweenKey(a, b, ms, i - 1);
    }
  }

  /** Later keys from a to b are later months. */
  lemma BetweenIncreasing(a: YearMonth, b: YearMonth, ms: seq<string>, i: int, j: int)
    requires Spans(a, b, ms) && 0 <= i < j < |ms|
    ensures ParseMonth(ms[i]).Some? && ParseMonth(ms[j]).Some?
    ensures Ordinal(ParseMonth(ms[i]).value) < Ordinal(ParseMonth(ms[j]).value)
  {
    BetweenKey(a, b, ms, i);
    BetweenKey(a, b, ms, j);
  }

  /** The keys from a to b start with a's key and end with b's. */
  lemma BetweenEnds(a: YearMonth, b: YearMonth, ms: seq<string>)
    requires Spans(a, b, ms)
    ensures ms[0] == FormatMonth(a) && ms[|ms| - 1] == FormatMonth(b)
  {
    var k := Ordinal(b) - Ordinal(a);
    MonthsFromAt(a, k + 1, 0);
    MonthsFromAt(a, k + 1, k);
    assert After(a, 0) == a;
    OrdinalInjective(After(a, k), b);
    SameKey(ms[0], After(a, 0), a);
    SameKey(ms[k], After(a, k), b);
  }

  /** `_month_iter` on success returns (ey - sy) * 12 + (em - sm) + 1 keys. */
  lemma {:induction false} MonthRangeLength(fromMonth: string, toMonth: string)
    requires MonthRange(fromMonth, toMonth).Success?
    ensures ParseMonth(fromMonth).Some? && ParseMonth(toMonth).Some?
    ensures var a, b := ParseMonth(fromMonth).value, ParseMonth(toMonth).value;
      |MonthRange(fromMonth, toMonth).value| == (b.year - a.year) * 12 + (b.month - a.month) + 1
  {
    MonthRangeValue(fromMonth, toMonth);
  }

  /** The first and last keys of the range are the normalised endpoints. */
  lemma {:induction false} MonthRangeEnds(fromMonth: string, toMonth: string)
    requires MonthRange(fromMonth, toMonth).Success?
    ensures NormMonth(fromMonth).Success? && NormMonth(toMonth).Success?
    ensures var ms := MonthRange(fromMonth, toMonth).value;
      && ms[0] == NormMonth(fromMonth).value
      && ms[|ms| - 1] == NormMonth(toMonth).value
  {
    MonthRangeValue(fromMonth, toMonth);
    BetweenEnds(ParseMonth(fromMonth).value, ParseMonth(toMonth).value, MonthRange(fromMonth, toMonth).value);
  }

  /** Every key of the range is canonical, and each is the month after the one before it. */
  lemma {:induction false} MonthRangeSteps(fromMonth: string, toMonth: string)
    requires MonthRange(fromMonth, toMonth).Success?
    ensures var ms := MonthRange(fromMonth, toMonth).value;
      && (forall i :: 0 <= i < |ms| ==> IsMonthKey(ms[i]) && ParseMonth(ms[i]).Some?)
      && (forall i :: 0 < i < |ms| ==> ParseMonth(ms[i]).value == NextMonth(ParseMonth(ms[i - 1]).value))
  {
    MonthRangeValue(fromMonth, toMonth);
    BetweenSteps(ParseMonth(fromMonth).value, ParseMonth(toMonth).value, MonthRange(fromMonth, toMonth).value);
  }

  /** The range is strictly increasing in time. */
  lemma {:induction false} MonthRangeIncreasing(fromMonth: string, toMonth: string, i: int, j: int)
    requires MonthRange(fromMonth, toMonth).Success?
    requires 0 <= i < j < |MonthRange(fromMonth, toMonth).value|
    ensures var ms := MonthRange(fromMonth, toMonth).value;
      ParseMonth(ms[i]).Some? && ParseMonth(ms[j]).Some?
      && Ordinal(ParseMonth(ms[i]).value) < Ordinal(ParseMonth(ms[j]).value)
  {
    MonthRangeValue(fromMonth, toMonth);
    BetweenIncreasing(ParseMonth(fromMonth).value, ParseMonth(toMonth).value, MonthRange(fromMonth, toMonth).value, i, j);
  }

  /** A zero-padded key is kept as it is. */
  lemma NormMonthPadded()
    ensures NormMonth("2026-02") == Success("2026-02")
  {
    var k := "2026-02";
    NormMonthKey(k);
  }

  /** A one-digit month is accepted and padded to two digits. */
  lemma NormMonthShort()
    ensures NormMonth("2026-2") == Success("2026-02")
  {
    NormMonthPadded();
    assert ParseMonth("2026-2") == Some(YearMonth(2026, 2));
    assert ParseMonth("2026-02") == Some(YearMonth(2026, 2));
  }

  /** A month outside 1..12, or year 0, is refused as a bad format. */
  lemma NormMonthRejects()
    ensures NormMonth("2026-13") == Failure(InvalidFormat)
    ensures NormMonth("0000-01") == Failure(InvalidFormat)
  {
  }
}
