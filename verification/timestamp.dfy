/** The publication timestamps of the vacancy files, written
    "YYYY-MM-DDTHH:MM:SS+HHMM", and the ways the scripts read them: through
    `datetime.strptime(..., "%Y-%m-%dT%H:%M:%S%z")` and `strftime`, or by
    slicing the text (`[:4]` for the year, `[:7]` for the month). */
module Timestamp {
  import opened Wrappers
  import opened Numbers

  datatype DateTime = DateTime(year: nat, month: nat, day: nat, hour: nat, minute: nat, second: nat)

  predicate IsLeap(y: nat)
  {
    y % 4 == 0 && (y % 100 != 0 || y % 400 == 0)
  }

  function DaysInMonth(y: nat, m: nat): (n: nat)
    requires 1 <= m <= 12
    ensures 28 <= n <= 31
  {
    if m == 2 then (if IsLeap(y) then 29 else 28)
    else if m == 4 || m == 6 || m == 9 || m == 11 then 30
    else 31
  }

  /** The fields that `datetime` accepts. */
  predicate ValidDateTime(t: DateTime)
  {
    1 <= t.year <= 9999 && 1 <= t.month <= 12 && 1 <= t.day <= DaysInMonth(t.year, t.month)
    && t.hour < 24 && t.minute < 60 && t.second < 60
  }

  predicate DigitsAt(s: string, i: nat, n: nat)
  {
    i + n <= |s| && AllDigits(s[i..i + n])
  }

  function NumAt(s: string, i: nat, n: nat): nat
    requires DigitsAt(s, i, n)
  {
    DigitsValue(s[i..i + n])
  }

  /** Three runs of digits of the given widths joined by `sep`:
      "YYYY-MM-DD" or "HH:MM:SS". */
  predicate Triple(s: string, w: nat, sep: char)
  {
    |s| == w + 6 && DigitsAt(s, 0, w) && s[w] == sep && DigitsAt(s, w + 1, 2)
    && s[w + 3] == sep && DigitsAt(s, w + 4, 2)
  }

  /** The character layout "YYYY-MM-DDTHH:MM:SS+HHMM" (or "-HHMM"). */
  predicate Layout(s: string)
  {
    |s| == 24 && Triple(s[..10], 4, '-') && s[10] == 'T' && Triple(s[11..19], 2, ':')
    && (s[19] == '+' || s[19] == '-') && DigitsAt(s, 20, 2) && DigitsAt(s, 22, 2)
  }

  /** `datetime.strptime(s, "%Y-%m-%dT%H:%M:%S%z")`: `None` where Python
      raises `ValueError`. The offset is checked (under 24 hours) but does not
      move the local fields, which are what `strftime` prints. */
  function Parse(s: string): Option<DateTime>
  {
    if !Layout(s) then None
    else
      var date, time := s[..10], s[11..19];
      var t := DateTime(NumAt(date, 0, 4), NumAt(date, 5, 2), NumAt(date, 8, 2),
                        NumAt(time, 0, 2), NumAt(time, 3, 2), NumAt(time, 6, 2));
      if ValidDateTime(t) && NumAt(s, 20, 2) < 24 && NumAt(s, 22, 2) < 60 then Some(t) else None
  }

  /** `n` written with exactly `width` digits, leading zeros first. */
  function Pad(n: nat, width: nat): (s: string)
    ensures |s| == width && AllDigits(s)
  {
    if width == 0 then "" else Pad(n / 10, width - 1) + [DigitChar(n % 10)]
  }

  /** Reading back `Pad(n, width)` gives `n` whenever it fits. */
  lemma {:induction false} PadReadsBack(n: nat, width: nat)
    requires n < Pow10(width)
    ensures DigitsValue(Pad(n, width)) == n
  {
    if width > 0 {
      var s := Pad(n, width);
      assert s[..|s| - 1] == Pad(n / 10, width - 1);
      PadReadsBack(n / 10, width - 1);
    }
  }

  /** A run of digits is the padded form of its own value. */
  lemma {:induction false} DigitsArePadded(s: string)
    requires AllDigits(s)
    ensures DigitsValue(s) < Pow10(|s|)
    ensures Pad(DigitsValue(s), |s|) == s
  {
    if |s| > 0 {
      var front := s[..|s| - 1];
      DigitsArePadded(front);
      var v := DigitsValue(s);
      assert v / 10 == DigitsValue(front) && v % 10 == DigitValue(s[|s| - 1]);
      assert s == front + [s[|s| - 1]];
    }
  }

  /** Three numbers padded and joined by `sep`. */
  function JoinTriple(a: nat, w: nat, b: nat, c: nat, sep: char): string
  {
    Pad(a, w) + [sep] + Pad(b, 2) + [sep] + Pad(c, 2)
  }

  /** The three numbers read back from their joined text. */
  lemma TripleReadsBack(a: nat, w: nat, b: nat, c: nat, sep: char)
    requires a < Pow10(w) && b < 100 && c < 100
    ensures var s := JoinTriple(a, w, b, c, sep);
      Triple(s, w, sep) && NumAt(s, 0, w) == a && NumAt(s, w + 1, 2) == b && NumAt(s, w + 4, 2) == c
  {
    var s := JoinTriple(a, w, b, c, sep);
    assert Pow10(2) == 100;
    assert s[0..w] == Pad(a, w);
    assert s[w + 1..w + 3] == Pad(b, 2);
    assert s[w + 4..w + 6] == Pad(c, 2);
    PadAt(s, 0, a, w);
    PadAt(s, w + 1, b, 2);
    PadAt(s, w + 4, c, 2);
  }

  /** A text in the triple layout is the join of the numbers it holds. */
  lemma TripleIsJoin(s: string, w: nat, sep: char)
    requires Triple(s, w, sep)
    ensures s == JoinTriple(NumAt(s, 0, w), w, NumAt(s, w + 1, 2), NumAt(s, w + 4, 2), sep)
  {
    DigitsArePadded(s[0..w]);
    DigitsArePadded(s[w + 1..w + 3]);
    DigitsArePadded(s[w + 4..w + 6]);
    assert s == s[0..w] + [s[w]] + s[w + 1..w + 3] + [s[w + 3]] + s[w + 4..w + 6];
  }

  /** The text of a timestamp with offset "+0000". */
  function Render(t: DateTime): string
  {
    JoinTriple(t.year, 4, t.month, t.day, '-') + "T" + JoinTriple(t.hour, 2, t.minute, t.second, ':') + "+0000"
  }

  /** Every valid date and time reads back from its own text. */
  lemma ParseRender(t: DateTime)
    requires ValidDateTime(t)
    ensures Parse(Render(t)) == Some(t)
  {
    var date, time := JoinTriple(t.year, 4, t.month, t.day, '-'), JoinTriple(t.hour, 2, t.minute, t.second, ':');
    var s := Render(t);
    assert Pow10(2) == 100 && Pow10(4) == 10000;
    TripleReadsBack(t.year, 4, t.month, t.day, '-');
    TripleReadsBack(t.hour, 2, t.minute, t.second, ':');
    assert s[..10] == date && s[11..19] == time;
    assert s[20..22] == "00" && s[22..24] == "00";
    assert DigitsValue("00") == 0;
  }

  /** A parsed timestamp is the text of its fields up to the offset: the
      parse loses nothing but the offset. */
  lemma RenderParse(s: string)
    requires Parse(s).Some?
    ensures Render(Parse(s).value)[..19] == s[..19]
  {
    var t := Parse(s).value;
    TripleIsJoin(s[..10], 4, '-');
    TripleIsJoin(s[11..19], 2, ':');
    assert s[..19] == s[..10] + [s[10]] + s[11..19];
  }

  /** `strftime("%d.%m.%Y")`. */
  function Dmy(t: DateTime): string
  {
    Pad(t.day, 2) + "." + Pad(t.month, 2) + "." + Pad(t.year, 4)
  }

  /** `strftime("%d.%m.%Y-%H:%M:%S")`. */
  function FullTime(t: DateTime): string
  {
    Dmy(t) + "-" + JoinTriple(t.hour, 2, t.minute, t.second, ':')
  }

  lemma PadAt(s: string, i: nat, n: nat, width: nat)
    requires i + width <= |s| && s[i..i + width] == Pad(n, width) && n < Pow10(width)
    ensures DigitsAt(s, i, width) && NumAt(s, i, width) == n
  {
    PadReadsBack(n, width);
  }

  /** The day, month and year read back from the "DD.MM.YYYY" text. */
  lemma DmyReadsBack(t: DateTime)
    requires ValidDateTime(t)
    ensures var d := Dmy(t);
      |d| == 10 && d[2] == '.' && d[5] == '.'
      && DigitsAt(d, 0, 2) && NumAt(d, 0, 2) == t.day
      && DigitsAt(d, 3, 2) && NumAt(d, 3, 2) == t.month
      && DigitsAt(d, 6, 4) && NumAt(d, 6, 4) == t.year
  {
    var d := Dmy(t);
    assert Pow10(2) == 100 && Pow10(4) == 10000;
    PadAt(d, 0, t.day, 2);
    PadAt(d, 3, t.month, 2);
    PadAt(d, 6, t.year, 4);
  }

  /** Python's `s[:n]`: the first `n` characters, or all of a shorter text. */
  function Prefix(s: string, n: nat): (r: string)
    ensures |r| == if |s| < n then |s| else n
    ensures r <= s
  {
    if |s| <= n then s else s[..n]
  }

  /** `published_at[:7]`, the "YYYY-MM" key of the exchange-rate rows. */
  function MonthKey(s: string): string
  {
    Prefix(s, 7)
  }

  /** `published_at[:4]`, the year as text. */
  function YearText(s: string): string
  {
    Prefix(s, 4)
  }

  /** For a timestamp that parses, the sliced month key is the year and the
      month of the parsed date, and the sliced year reads as its year. */
  lemma SlicesAgreeWithParse(s: string)
    requires Parse(s).Some?
    ensures MonthKey(s) == Pad(Parse(s).value.year, 4) + "-" + Pad(Parse(s).value.month, 2)
    ensures ParseInt(YearText(s)) == Some(Parse(s).value.year)
  {
    RenderParse(s);
    var t := Parse(s).value;
    assert MonthKey(s) == s[..19][..7];
    assert Render(t)[..7] == Pad(t.year, 4) + "-" + Pad(t.month, 2);
    assert YearText(s) == s[0..4] == s[..10][0..4];
    assert IsDigit(s[..10][0..4][0]);
  }
}
