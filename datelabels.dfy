/**
 * Date labels such as "Thu, Jan 15:" carry no year. This module models
 * the recogniser `DATE_LABEL_RE` with the `MONTHS` table, the year
 * inference `_guess_year`, and their combination, which turns one bold
 * fragment into a date or into nothing.
 */
module DateLabels {
  import opened Wrappers
  import opened Calendar

  /** The trusted offsets, in days from today, of `_guess_year`'s window. */
  const WindowStart := -60
  const WindowEnd := 300

  /** `score(d)`: (outside the window ? 1 : 0, |delta|), compared as a tuple. */
  datatype Score = Score(outside: int, distance: int)

  predicate ScoreLt(a: Score, b: Score)
  {
    a.outside < b.outside || (a.outside == b.outside && a.distance < b.distance)
  }

  predicate ScoreLe(a: Score, b: Score)
  {
    a == b || ScoreLt(a, b)
  }

  function Abs(x: int): nat
  {
    if x < 0 then -x else x
  }

  predicate InWindow(delta: int)
  {
    WindowStart <= delta <= WindowEnd
  }

  function ScoreOf(today: Date, d: Date): Score
    requires ValidDate(today) && ValidDate(d)
  {
    var delta := DaysBetween(d, today);
    Score(if InWindow(delta) then 0 else 1, Abs(delta))
  }

  /** The years around `today` that are tried. */
  predicate IsNearbyYear(today: Date, y: int)
  {
    today.year - 1 <= y <= today.year + 1
  }

  /** The years whose `date(y, month, day)` does not raise, in the order they are tried. */
  function CandidateYears(today: Date, month: int, day: int): (ys: seq<int>)
    ensures forall y :: y in ys <==> IsNearbyYear(today, y) && ValidDate(Date(y, month, day))
    ensures forall i, j :: 0 <= i < j < |ys| ==> ys[i] < ys[j]
  {
    var y := today.year;
    (if ValidDate(Date(y - 1, month, day)) then [y - 1] else [])
    + (if ValidDate(Date(y, month, day)) then [y] else [])
    + (if ValidDate(Date(y + 1, month, day)) then [y + 1] else [])
  }

  /** A candidate date's year together with its score. */
  datatype Candidate = Candidate(year: int, score: Score)

  /** `candidates` of `_guess_year`, each with its `score`. */
  function Candidates(today: Date, month: int, day: int): (cs: seq<Candidate>)
    requires ValidDate(today)
    ensures |cs| == |CandidateYears(today, month, day)|
    ensures forall i :: 0 <= i < |cs| ==>
      && cs[i].year == CandidateYears(today, month, day)[i]
      && ValidDate(Date(cs[i].year, month, day))
      && cs[i].score == ScoreOf(today, Date(cs[i].year, month, day))
  {
    var ys := CandidateYears(today, month, day);
    seq(|ys|, i requires 0 <= i < |ys| => Candidate(ys[i], ScoreOf(today, Date(ys[i], month, day))))
  }

  /**
   * Python's `min(cs, key=score)`: the index of a candidate of least score,
   * and of those the first, since `min` keeps the earliest on ties.
   */
  function FirstMin(cs: seq<Candidate>): (k: nat)
    requires |cs| > 0
    ensures k < |cs|
    ensures forall i :: 0 <= i < |cs| ==> ScoreLe(cs[k].score, cs[i].score)
    ensures forall i :: 0 <= i < k ==> ScoreLt(cs[k].score, cs[i].score)
  {
    if |cs| == 1 then 0
    else
      var m := FirstMin(cs[..|cs| - 1]);
      if ScoreLt(cs[|cs| - 1].score, cs[m].score) then |cs| - 1 else m
  }

  /** `_guess_year`. */
  function GuessYear(today: Date, month: int, day: int): int
    requires ValidDate(today)
  {
    var cs := Candidates(today, month, day);
    if cs == [] then today.year else cs[FirstMin(cs)].year
  }

  /**
   * The inferred year is a candidate of least score, or today's year when
   * no candidate is a valid date.
   */
  lemma GuessYearChoice(today: Date, month: int, day: int)
    requires ValidDate(today)
    ensures CandidateYears(today, month, day) == [] ==> GuessYear(today, month, day) == today.year
    ensures CandidateYears(today, month, day) != [] ==>
      var y := GuessYear(today, month, day);
      && IsNearbyYear(today, y)
      && ValidDate(Date(y, month, day))
      && forall c :: IsNearbyYear(today, c) && ValidDate(Date(c, month, day)) ==>
           ScoreLe(ScoreOf(today, Date(y, month, day)), ScoreOf(today, Date(c, month, day)))
  {
    var cs := Candidates(today, month, day);
    if cs != [] {
      var k := FirstMin(cs);
      var ys := CandidateYears(today, month, day);
      assert cs[k].year in ys;
      forall c | IsNearbyYear(today, c) && ValidDate(Date(c, month, day))
        ensures ScoreLe(ScoreOf(today, Date(cs[k].year, month, day)), ScoreOf(today, Date(c, month, day)))
      {
        assert c in ys;
        var i :| 0 <= i < |ys| && ys[i] == c;
        assert cs[i].year == c;
      }
    }
  }

  /** A valid date is produced exactly when one of the three nearby years admits it. */
  lemma GuessYearValidIff(today: Date, month: int, day: int)
    requires ValidDate(today)
    ensures ValidDate(Date(GuessYear(today, month, day), month, day)) <==>
      exists c :: IsNearbyYear(today, c) && ValidDate(Date(c, month, day))
  {
    GuessYearChoice(today, month, day);
    var ys := CandidateYears(today, month, day);
    if ys == [] {
      assert !(today.year in ys);
    } else {
      assert ys[0] in ys;
    }
  }

  /** A candidate inside the window always beats one outside it. */
  lemma GuessYearPrefersWindow(today: Date, month: int, day: int, c: int)
    requires ValidDate(today)
    requires IsNearbyYear(today, c) && ValidDate(Date(c, month, day))
    requires InWindow(DaysBetween(Date(c, month, day), today))
    ensures var y := GuessYear(today, month, day);
      ValidDate(Date(y, month, day)) && InWindow(DaysBetween(Date(y, month, day), today))
  {
    GuessYearChoice(today, month, day);
    assert c in CandidateYears(today, month, day);
  }

  /** A valid nearby year whose score beats every other valid nearby year's is the one inferred. */
  lemma GuessYearUnique(today: Date, month: int, day: int, y: int)
    requires ValidDate(today)
    requires IsNearbyYear(today, y) && ValidDate(Date(y, month, day))
    requires forall c :: IsNearbyYear(today, c) && ValidDate(Date(c, month, day)) && c != y ==>
      ScoreLt(ScoreOf(today, Date(y, month, day)), ScoreOf(today, Date(c, month, day)))
    ensures GuessYear(today, month, day) == y
  {
    GuessYearChoice(today, month, day);
    assert y in CandidateYears(today, month, day);
  }

  /** Today 2024-12-20, "Jan 3" rolls over into the next year. */
  lemma GuessYearRollsForward(today: Date)
    requires today == Date(2024, 12, 20)
    ensures GuessYear(today, 1, 3) == 2025
  {
    assert DaysBetween(Date(2023, 1, 3), today) == -717;
    assert DaysBetween(Date(2024, 1, 3), today) == -352;
    assert DaysBetween(Date(2025, 1, 3), today) == 14;
    GuessYearUnique(today, 1, 3, 2025);
  }

  /** Today 2024-01-05, "Jan 10" stays in the current year. */
  lemma GuessYearKeepsCurrent(today: Date)
    requires today == Date(2024, 1, 5)
    ensures GuessYear(today, 1, 10) == 2024
  {
    assert DaysBetween(Date(2023, 1, 10), today) == -360;
    assert DaysBetween(Date(2024, 1, 10), today) == 5;
    assert DaysBetween(Date(2025, 1, 10), today) == 371;
    GuessYearUnique(today, 1, 10, 2024);
  }

  /** Feb 29 with no leap year among 2021..2023 falls back to today's year. */
  lemma GuessYearFallsBack(today: Date)
    requires today == Date(2022, 6, 1)
    ensures GuessYear(today, 2, 29) == 2022
  {
    assert !IsLeapYear(2021) && !IsLeapYear(2022) && !IsLeapYear(2023);
    assert CandidateYears(today, 2, 29) == [];
    GuessYearChoice(today, 2, 29);
  }

  // ---- The recogniser DATE_LABEL_RE and the MONTHS table ----

  const Weekdays: seq<string> := ["Mon", "Tue", "Wed", "Thu", "Fri", "Sat", "Sun"]
  const MonthNames: seq<string> := ["Jan", "Feb", "Mar", "Apr", "May", "Jun", "Jul", "Aug", "Sep", "Oct", "Nov", "Dec"]

  /**
   * `\s` over ASCII: space, tab, line feed, vertical tab, form feed,
   * carriage return, and the four separators U+001C to U+001F, which
   * `str.isspace` also counts as whitespace.
   */
  predicate IsSpace(c: char)
  {
    c == ' ' || c == '\t' || c == '\n' || c == '\U{0B}' || c == '\U{0C}' || c == '\r'
    || '\U{1C}' <= c <= '\U{1F}'
  }

  predicate IsLetter(c: char)
  {
    'A' <= c <= 'Z' || 'a' <= c <= 'z'
  }

  predicate IsDigit(c: char)
  {
    '0' <= c <= '9'
  }

  predicate AllDigits(s: string)
  {
    forall i :: 0 <= i < |s| ==> IsDigit(s[i])
  }

  /** `int(...)` of a string of decimal digits. */
  function DigitsValue(s: string): nat
    requires AllDigits(s)
  {
    if s == [] then 0
    else DigitsValue(s[..|s| - 1]) * 10 + (s[|s| - 1] as int - '0' as int)
  }

  /** The position, counted from 1, of `name` in the table from index `from` on. */
  function MonthIndex(name: string, from: nat): (m: Option<int>)
    requires from <= |MonthNames|
    ensures m.Some? <==> name in MonthNames[from..]
    ensures m.Some? ==> from < m.value <= 12 && MonthNames[m.value - 1] == name
    decreases |MonthNames| - from
  {
    if from == |MonthNames| then None
    else if MonthNames[from] == name then Some(from + 1)
    else
      assert MonthNames[from..] == [MonthNames[from]] + MonthNames[from + 1..];
      MonthIndex(name, from + 1)
  }

  /** `MONTHS.get(name)`: a case-sensitive lookup; "Jan" is 1 and "Dec" is 12. */
  function MonthNumber(name: string): (m: Option<int>)
    ensures m.Some? <==> name in MonthNames
    ensures m.Some? ==> 1 <= m.value <= 12 && MonthNames[m.value - 1] == name
  {
    assert MonthNames[0..] == MonthNames;
    MonthIndex(name, 0)
  }

  /** What the two capture groups of a successful match hold. */
  datatype LabelParts = LabelParts(monthName: string, day: nat)

  /**
   * `DATE_LABEL_RE.match(s)`. Python's `$` also matches just before a
   * final line feed, so one trailing "\n" is admitted.
   */
  function MatchLabel(s: string): Option<LabelParts>
  {
    var b := if |s| > 0 && s[|s| - 1] == '\n' then s[..|s| - 1] else s;
    if && (|b| == 11 || |b| == 12)
       && b[..3] in Weekdays && b[3] == ',' && IsSpace(b[4])
       && IsLetter(b[5]) && IsLetter(b[6]) && IsLetter(b[7]) && IsSpace(b[8])
       && AllDigits(b[9..|b| - 1]) && b[|b| - 1] == ':'
    then Some(LabelParts(b[5..8], DigitsValue(b[9..|b| - 1])))
    else None
  }

  /** The pieces a label is made of, each of the shape the expression demands. */
  predicate WellFormedPieces(weekday: string, sep1: char, monthName: string, sep2: char, digits: string)
  {
    && weekday in Weekdays && IsSpace(sep1) && IsSpace(sep2)
    && |monthName| == 3 && IsLetter(monthName[0]) && IsLetter(monthName[1]) && IsLetter(monthName[2])
    && 1 <= |digits| <= 2 && AllDigits(digits)
  }

  function Label(weekday: string, sep1: char, monthName: string, sep2: char, digits: string): string
  {
    weekday + [',', sep1] + monthName + [sep2] + digits + [':']
  }

  /** A final line feed is stripped before matching, when the string does not already end in one. */
  lemma MatchLabelStripsNewline(s: string)
    requires |s| > 0 && s[|s| - 1] != '\n'
    ensures MatchLabel(s + "\n") == MatchLabel(s)
  {
    var t := s + "\n";
    assert t[|t| - 1] == '\n' && t[..|t| - 1] == s;
  }

  lemma MatchBareLabel(weekday: string, sep1: char, monthName: string, sep2: char, digits: string)
    requires WellFormedPieces(weekday, sep1, monthName, sep2, digits)
    ensures MatchLabel(Label(weekday, sep1, monthName, sep2, digits)) == Some(LabelParts(monthName, DigitsValue(digits)))
  {
    var s := Label(weekday, sep1, monthName, sep2, digits);
    assert |weekday| == 3 && |s| == 10 + |digits|;
    assert s[|s| - 1] == ':';
    assert s[..3] == weekday && s[3] == ',' && s[4] == sep1 && s[8] == sep2;
    assert s[5..8] == monthName;
    assert s[9..|s| - 1] == digits;
  }

  /** Every label of the expected shape is recognised, with or without a final line feed. */
  lemma MatchLabelComplete(weekday: string, sep1: char, monthName: string, sep2: char, digits: string)
    requires WellFormedPieces(weekday, sep1, monthName, sep2, digits)
    ensures MatchLabel(Label(weekday, sep1, monthName, sep2, digits)) == Some(LabelParts(monthName, DigitsValue(digits)))
    ensures MatchLabel(Label(weekday, sep1, monthName, sep2, digits) + "\n") == Some(LabelParts(monthName, DigitsValue(digits)))
  {
    MatchBareLabel(weekday, sep1, monthName, sep2, digits);
    var s := Label(weekday, sep1, monthName, sep2, digits);
    assert s[|s| - 1] == ':';
    MatchLabelStripsNewline(s);
  }

  /** Nothing but a label of the expected shape is recognised. */
  lemma MatchLabelSound(s: string)
    requires MatchLabel(s).Some?
    ensures exists weekday, sep1, monthName, sep2, digits ::
      && WellFormedPieces(weekday, sep1, monthName, sep2, digits)
      && (s == Label(weekday, sep1, monthName, sep2, digits) || s == Label(weekday, sep1, monthName, sep2, digits) + "\n")
      && MatchLabel(s) == Some(LabelParts(monthName, DigitsValue(digits)))
  {
    var b := if |s| > 0 && s[|s| - 1] == '\n' then s[..|s| - 1] else s;
    var weekday, monthName, digits := b[..3], b[5..8], b[9..|b| - 1];
    assert b == Label(weekday, b[4], monthName, b[8], digits);
    assert s == b || s == b + "\n";
    assert WellFormedPieces(weekday, b[4], monthName, b[8], digits);
  }

  /**
   * One bold fragment: recognised, its month looked up, its year
   * inferred, and the date built; any failing step yields nothing.
   */
  function ParseDateLabel(raw: string, today: Date): (r: Option<Date>)
    requires ValidDate(today)
    ensures r.Some? ==> ValidDate(r.value)
  {
    match MatchLabel(raw)
    case None => None
    case Some(parts) =>
      match MonthNumber(parts.monthName)
      case None => None
      case Some(month) =>
        var d := Date(GuessYear(today, month, parts.day), month, parts.day);
        if ValidDate(d) then Some(d) else None
  }

  /**
   * A fragment yields a date exactly when it has the label shape, names a
   * month of the table, and one of the three nearby years admits the day;
   * the date is then the one the year inference picks.
   */
  lemma ParseDateLabelIff(raw: string, today: Date)
    requires ValidDate(today)
    ensures ParseDateLabel(raw, today).Some? <==>
      && MatchLabel(raw).Some?
      && MonthNumber(MatchLabel(raw).value.monthName).Some?
      && exists c :: IsNearbyYear(today, c) &&
           ValidDate(Date(c, MonthNumber(MatchLabel(raw).value.monthName).value, MatchLabel(raw).value.day))
    ensures ParseDateLabel(raw, today).Some? ==>
      var d := ParseDateLabel(raw, today).value;
      && d.month == MonthNumber(MatchLabel(raw).value.monthName).value
      && d.day == MatchLabel(raw).value.day
      && d.year == GuessYear(today, d.month, d.day)
  {
    var parts := MatchLabel(raw);
    if parts.Some? {
      var month := MonthNumber(parts.value.monthName);
      if month.Some? {
        var day := parts.value.day;
        var d := Date(GuessYear(today, month.value, day), month.value, day);
        assert ParseDateLabel(raw, today) == if ValidDate(d) then Some(d) else None;
        GuessYearValidIff(today, month.value, day);
      }
    }
  }
}
