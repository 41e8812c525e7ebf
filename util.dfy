/**
 * Display helpers: capitalising a word, formatting a duration as
 * `HH:MM:SS`, a date as `yyyy-mm-dd`, and a `yyyy-mm-dd` text as
 * "<Month> <d>, <y>".
 */
module Util {
  import opened Prelude
  import opened Time

  // ---------------------------------------------------------------------
  // Decimal digits
  // ---------------------------------------------------------------------

  predicate IsDigit(c: char) {
    '0' <= c <= '9'
  }

  /** Only decimal digits (possibly none). */
  predicate AllDigits(s: string) {
    forall k :: 0 <= k < |s| ==> IsDigit(s[k])
  }

  /** A non-empty run of decimal digits. */
  predicate IsDigits(s: string) {
    |s| > 0 && AllDigits(s)
  }

  function DigitChar(d: nat): (c: char)
    requires d < 10
    ensures IsDigit(c) && c as int - '0' as int == d
  {
    ('0' as int + d) as char
  }

  /** The number a run of decimal digits denotes. */
  function DigitsValue(s: string): nat
    requires AllDigits(s)
  {
    if s == [] then 0 else DigitsValue(s[..|s| - 1]) * 10 + (s[|s| - 1] as int - '0' as int)
  }

  /** `n.toString()` for a natural number: its decimal digits, without leading zeros. */
  function NatToString(n: nat): (r: string)
    ensures IsDigits(r) && DigitsValue(r) == n
    ensures |r| > 1 ==> r[0] != '0'
    ensures n < 10 ==> |r| == 1
    ensures n < 100 ==> |r| <= 2
  {
    if n < 10 then [DigitChar(n)]
    else
      var init := NatToString(n / 10);
      var r := init + [DigitChar(n % 10)];
      assert r[..|r| - 1] == init;
      r
  }

  /** `String(i)` for an integer: a minus sign before the digits of a negative number. */
  function IntToString(i: int): (r: string)
    ensures i >= 0 ==> IsDigits(r) && DigitsValue(r) == i
    ensures i < 0 ==> |r| > 1 && r[0] == '-' && IsDigits(r[1..]) && DigitsValue(r[1..]) == -i
  {
    if i < 0 then
      var r := "-" + NatToString(-i);
      assert r[1..] == NatToString(-i);
      r
    else NatToString(i)
  }

  /** A leading zero does not change the value. */
  lemma {:induction false} LeadingZero(s: string)
    requires AllDigits(s)
    ensures AllDigits("0" + s) && DigitsValue("0" + s) == DigitsValue(s)
  {
    if s != [] {
      var z := "0" + s;
      assert z[..|z| - 1] == "0" + s[..|s| - 1];
      LeadingZero(s[..|s| - 1]);
    }
  }

  /** `padStart(2, '0')`: zeros in front up to two characters. */
  function PadStart2(s: string): (r: string)
    ensures |s| >= 2 ==> r == s
    ensures |s| < 2 ==> |r| == 2 && r[2 - |s|..] == s
    ensures IsDigits(s) ==> IsDigits(r) && DigitsValue(r) == DigitsValue(s)
  {
    if |s| >= 2 then s
    else if |s| == 1 then
      assert AllDigits(s) ==> AllDigits("0" + s) && DigitsValue("0" + s) == DigitsValue(s) by {
        if AllDigits(s) {
          LeadingZero(s);
        }
      }
      "0" + s
    else
      "00"
  }

  /** A natural number in at least two digits. */
  function Pad2(n: nat): (r: string)
    ensures IsDigits(r) && DigitsValue(r) == n && |r| >= 2
    ensures n < 100 ==> |r| == 2
    ensures |r| > 2 ==> r[0] != '0'
  {
    PadStart2(NatToString(n))
  }

  // ---------------------------------------------------------------------
  // capitalizeFirstLetter
  // ---------------------------------------------------------------------

  /** `toUpperCase` of one character, on ASCII letters. */
  function UpperChar(c: char): (u: char)
    ensures 'a' <= c <= 'z' ==> 'A' <= u <= 'Z' && u as int == c as int - 32
    ensures !('a' <= c <= 'z') ==> u == c
  {
    if 'a' <= c <= 'z' then (c as int - 32) as char else c
  }

  /** `capitalizeFirstLetter`: "" stays "", otherwise only the first character is upper-cased. */
  function CapitalizeFirstLetter(s: string): (r: string)
    ensures s == [] ==> r == []
    ensures s != [] ==> |r| == |s| && r[0] == UpperChar(s[0]) && r[1..] == s[1..]
  {
    if s == [] then "" else [UpperChar(s[0])] + s[1..]
  }

  /** Capitalising twice is capitalising once, and the first character is never a lower-case letter after. */
  lemma CapitalizeIdempotent(s: string)
    ensures CapitalizeFirstLetter(CapitalizeFirstLetter(s)) == CapitalizeFirstLetter(s)
    ensures s != [] ==> !('a' <= CapitalizeFirstLetter(s)[0] <= 'z')
  {
    if s != [] {
      var r := CapitalizeFirstLetter(s);
      assert [r[0]] + r[1..] == r;
    }
  }

  // ---------------------------------------------------------------------
  // formatDuration
  // ---------------------------------------------------------------------

  /** The whole seconds of a duration in milliseconds; NaN, infinities and negative durations count as 0. */
  function WholeSeconds(ms: JsNumber): (secs: nat)
    ensures ms.NonFinite? || ms.value < 1000.0 ==> secs == 0
  {
    if ms.NonFinite? || ms.value < 0.0 then 0 else (ms.value / 1000.0).Floor
  }

  /** The three fields of `a`, `sep`, `b`, `sep`, `c` when `b` and `c` take two characters each. */
  lemma ThreeFields(a: string, sep: char, b: string, c: string)
    requires |b| == 2 && |c| == 2
    ensures var r := a + [sep] + b + [sep] + c; var n := |r|;
      && n == |a| + 6 && r[..n - 6] == a && r[n - 6] == sep && r[n - 5..n - 3] == b && r[n - 3] == sep && r[n - 2..] == c
  {
  }

  /** `secs` is `hours * 3600 + minutes * 60 + seconds` with minutes and seconds below 60. */
  lemma ClockSplit(secs: nat)
    ensures secs == (secs / 60 / 60) * 3600 + (secs / 60 % 60) * 60 + secs % 60
  {
    var mins := secs / 60;
    assert secs == mins * 60 + secs % 60;
    assert mins == (mins / 60) * 60 + mins % 60;
  }

  /** Fewer than 100 hours' worth of seconds make fewer than 100 hours. */
  lemma HoursBelow100(secs: nat)
    ensures secs < 360000 ==> secs / 60 / 60 < 100
  {
    if secs < 360000 {
      assert secs / 60 < 6000;
    }
  }

  /**
   * `formatDuration`: `HH:MM:SS` where the hours take at least two digits,
   * minutes and seconds exactly two, each below 60, and the three fields
   * add up to the whole seconds of the duration. Below 100 hours the hours
   * take exactly two digits; beyond, they carry no leading zero.
   */
  function FormatDuration(ms: JsNumber): (r: string)
    ensures var n := |r|;
      && n >= 8 && r[n - 6] == ':' && r[n - 3] == ':'
      && IsDigits(r[..n - 6]) && IsDigits(r[n - 5..n - 3]) && IsDigits(r[n - 2..])
      && DigitsValue(r[n - 5..n - 3]) < 60 && DigitsValue(r[n - 2..]) < 60
      && DigitsValue(r[..n - 6]) * 3600 + DigitsValue(r[n - 5..n - 3]) * 60 + DigitsValue(r[n - 2..]) == WholeSeconds(ms)
    ensures WholeSeconds(ms) < 360000 ==> |r| == 8
    ensures |r| > 8 ==> r[0] != '0'
  {
    var secs := WholeSeconds(ms);
    var mins := secs / 60;
    var hours := mins / 60;
    HoursBelow100(secs);
    var h, m, s := Pad2(hours), Pad2(mins % 60), Pad2(secs % 60);
    ThreeFields(h, ':', m, s);
    ClockSplit(secs);
    h + [':'] + m + [':'] + s
  }

  /** Invalid and negative durations, and anything under a second, show as zero. */
  lemma FormatDurationOfNothing(ms: JsNumber)
    requires ms.NonFinite? || ms.value < 1000.0
    ensures FormatDuration(ms) == "00:00:00"
  {
    assert Pad2(0) == "00";
  }

  // ---------------------------------------------------------------------
  // toYmd
  // ---------------------------------------------------------------------

  /**
   * `toYmd` of a date with full year `year`, zero-based month `month0` and
   * day of the month `day`: the year as printed, then month and day in two
   * digits each, separated by '-'.
   */
  function ToYmd(year: int, month0: int, day: int): (r: string)
    requires 0 <= month0 < 12 && 1 <= day <= 31
    ensures var n := |r|;
      && n >= 7 && r[n - 6] == '-' && r[n - 3] == '-'
      && r[..n - 6] == IntToString(year)
      && IsDigits(r[n - 5..n - 3]) && DigitsValue(r[n - 5..n - 3]) == month0 + 1
      && IsDigits(r[n - 2..]) && DigitsValue(r[n - 2..]) == day
  {
    var y, m, d := IntToString(year), Pad2(month0 + 1), Pad2(day);
    ThreeFields(y, '-', m, d);
    y + ['-'] + m + ['-'] + d
  }

  // ---------------------------------------------------------------------
  // formatDateLabel
  // ---------------------------------------------------------------------

  /** `s.split(c)`: the pieces between the separators, one more than there are separators. */
  function Split(s: string, c: char): (parts: seq<string>)
    ensures |parts| > 0
    ensures forall k :: 0 <= k < |parts| ==> c !in parts[k]
  {
    if s == [] then [""]
    else
      var parts := Split(s[..|s| - 1], c);
      var last := s[|s| - 1];
      if last == c then parts + [""]
      else parts[..|parts| - 1] + [parts[|parts| - 1] + [last]]
  }

  /** `parts.join(c)`. */
  function Join(parts: seq<string>, c: char): string
    requires |parts| > 0
  {
    if |parts| == 1 then parts[0] else Join(parts[..|parts| - 1], c) + [c] + parts[|parts| - 1]
  }

  /** Joining the pieces with the separator gives back the text. */
  lemma {:induction false} JoinSplit(s: string, c: char)
    ensures Join(Split(s, c), c) == s
  {
    if s != [] {
      var init := s[..|s| - 1];
      JoinSplit(init, c);
      var parts := Split(init, c);
      var last := s[|s| - 1];
      assert s == init + [last];
      if last != c {
        var parts' := parts[..|parts| - 1] + [parts[|parts| - 1] + [last]];
        assert parts'[..|parts'| - 1] == parts[..|parts| - 1];
        if |parts| > 1 {
          assert parts == parts[..|parts| - 1] + [parts[|parts| - 1]];
        }
      }
    }
  }

  /** One more character: a separator opens a new piece, anything else extends the last piece. */
  lemma SplitSnoc(s: string, x: char, c: char)
    ensures var parts := Split(s, c);
      Split(s + [x], c) ==
        if x == c then parts + [""] else parts[..|parts| - 1] + [parts[|parts| - 1] + [x]]
  {
    assert (s + [x])[..|s|] == s;
  }

  /** Splitting at a separator splits each side. */
  lemma {:induction false} SplitAround(a: string, b: string, c: char)
    ensures Split(a + [c] + b, c) == Split(a, c) + Split(b, c)
    decreases |b|
  {
    if b == [] {
      SplitSnoc(a, c, c);
      assert a + [c] + b == a + [c];
    } else {
      var b' := b[..|b| - 1];
      var last := b[|b| - 1];
      var s' := a + [c] + b';
      assert a + [c] + b == s' + [last];
      assert b == b' + [last];
      SplitAround(a, b', c);
      SplitStepBoth(s', b', last, c, Split(a, c));
    }
  }

  /** If `s` splits as `pa` followed by the pieces of `t`, one more character keeps that so. */
  lemma SplitStepBoth(s: string, t: string, x: char, c: char, pa: seq<string>)
    requires Split(s, c) == pa + Split(t, c)
    ensures Split(s + [x], c) == pa + Split(t + [x], c)
  {
    var pb := Split(t, c);
    var q := pa + pb;
    if x == c {
      assert Split(s + [x], c) == q + [""] by { SplitSnoc(s, x, c); }
      assert Split(t + [x], c) == pb + [""] by { SplitSnoc(t, x, c); }
      assert q + [""] == pa + (pb + [""]);
    } else {
      assert Split(s + [x], c) == q[..|q| - 1] + [q[|q| - 1] + [x]] by { SplitSnoc(s, x, c); }
      assert Split(t + [x], c) == pb[..|pb| - 1] + [pb[|pb| - 1] + [x]] by { SplitSnoc(t, x, c); }
      ExtendLastPiece(pa, pb, x);
    }
  }

  /** Extending the last piece of `pa + pb` extends the last piece of `pb`. */
  lemma ExtendLastPiece(pa: seq<string>, pb: seq<string>, x: char)
    requires |pb| > 0
    ensures var q := pa + pb;
      q[..|q| - 1] + [q[|q| - 1] + [x]] == pa + (pb[..|pb| - 1] + [pb[|pb| - 1] + [x]])
  {
    var q := pa + pb;
    assert q[..|q| - 1] == pa + pb[..|pb| - 1] && q[|q| - 1] == pb[|pb| - 1];
  }

  /** A text without the separator is one piece. */
  lemma {:induction false} SplitWithout(s: string, c: char)
    requires c !in s
    ensures Split(s, c) == [s]
  {
    if s != [] {
      SplitWithout(s[..|s| - 1], c);
      assert s == s[..|s| - 1] + [s[|s| - 1]];
    }
  }

  /**
   * `Number(part)` for a piece of the date: "" is 0, a run of digits its
   * value, anything else NaN (`None`).
   */
  function PartValue(part: string): (v: Option<nat>)
    ensures part == "" ==> v == Some(0)
    ensures IsDigits(part) ==> v == Some(DigitsValue(part))
    ensures !AllDigits(part) ==> v == None
  {
    if AllDigits(part) then Some(DigitsValue(part)) else None
  }

  /** A usable date piece: a number that is neither 0 nor NaN. */
  predicate Truthy(v: Option<nat>) {
    v.Some? && v.value != 0
  }

  /**
   * `formatDateLabel`: the text unchanged when it has fewer than three
   * '-'-separated pieces or one of the first three is 0 or not a number;
   * otherwise "<month name> <day>, <year>", the month name empty outside
   * 1 .. 12.
   */
  function FormatDateLabel(ymd: string): (r: string)
    ensures var parts := Split(ymd, '-');
      |parts| < 3 || !Truthy(PartValue(parts[0])) || !Truthy(PartValue(parts[1])) || !Truthy(PartValue(parts[2]))
      ==> r == ymd
    ensures var parts := Split(ymd, '-');
      |parts| >= 3 && Truthy(PartValue(parts[0])) && Truthy(PartValue(parts[1])) && Truthy(PartValue(parts[2]))
      ==> var month := MonthName(PartValue(parts[1]).value);
          r == (if month.Some? then month.value else "") + " " + NatToString(PartValue(parts[2]).value) + ", "
               + NatToString(PartValue(parts[0]).value)
  {
    var parts := Split(ymd, '-');
    if |parts| < 3 then ymd
    else
      var yyyy, mm, dd := PartValue(parts[0]), PartValue(parts[1]), PartValue(parts[2]);
      if !Truthy(yyyy) || !Truthy(mm) || !Truthy(dd) then ymd
      else
        var month := match MonthName(mm.value) case Some(name) => name case None => "";
        month + " " + NatToString(dd.value) + ", " + NatToString(yyyy.value)
  }

  lemma NoSeparatorInDigits(s: string, c: char)
    requires AllDigits(s) && !IsDigit(c)
    ensures c !in s
  {
  }

  /** The label of a date's `toYmd` text names its month, day and year. */
  lemma LabelOfYmd(year: int, month0: int, day: int)
    requires year >= 1 && 0 <= month0 < 12 && 1 <= day <= 31
    ensures FormatDateLabel(ToYmd(year, month0, day)) ==
      MONTH_NAMES[month0] + " " + NatToString(day) + ", " + NatToString(year)
  {
    var y, m, d := NatToString(year), Pad2(month0 + 1), Pad2(day);
    var ymd := ToYmd(year, month0, day);
    assert Split(ymd, '-') == [y, m, d] by {
      assert ymd == (y + ['-'] + m) + ['-'] + d;
      YmdPieces(y, m, d);
    }
    assert PartValue(y) == Some(year) && PartValue(m) == Some(month0 + 1) && PartValue(d) == Some(day);
    LabelOfPieces(ymd, y, m, d, year, month0 + 1, day);
  }

  /** Three non-zero numeric pieces give "<month name> <day>, <year>". */
  lemma LabelOfPieces(ymd: string, y: string, m: string, d: string, yyyy: nat, mm: nat, dd: nat)
    requires Split(ymd, '-') == [y, m, d]
    requires PartValue(y) == Some(yyyy) && PartValue(m) == Some(mm) && PartValue(d) == Some(dd)
    requires yyyy != 0 && 1 <= mm <= 12 && dd != 0
    ensures FormatDateLabel(ymd) == MONTH_NAMES[mm - 1] + " " + NatToString(dd) + ", " + NatToString(yyyy)
  {
    var parts := Split(ymd, '-');
    assert parts[0] == y && parts[1] == m && parts[2] == d;
    assert Truthy(PartValue(parts[0])) && Truthy(PartValue(parts[1])) && Truthy(PartValue(parts[2]));
    assert MonthName(PartValue(parts[1]).value) == Some(MONTH_NAMES[mm - 1]);
  }

  /** Three runs of digits joined by '-' split back into the three runs. */
  lemma YmdPieces(y: string, m: string, d: string)
    requires IsDigits(y) && IsDigits(m) && IsDigits(d)
    ensures Split((y + ['-'] + m) + ['-'] + d, '-') == [y, m, d]
  {
    NoSeparatorInDigits(y, '-');
    NoSeparatorInDigits(m, '-');
    NoSeparatorInDigits(d, '-');
    var ym := y + ['-'] + m;
    assert Split(ym, '-') == [y, m] by {
      SplitAround(y, m, '-');
      SplitWithout(y, '-');
      SplitWithout(m, '-');
    }
    SplitAround(ym, d, '-');
    SplitWithout(d, '-');
  }
}
