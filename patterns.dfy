/** The three line patterns of the issue-description parser
    (`process_space_item_description`).

    The parser applies three regular expressions, independently, to every
    scanned (trimmed, lower-cased) line with `re.match`, which anchors them
    at the start of the line. Because lines come from `splitlines`, they
    hold no newline, so `.` in the patterns matches any character.

    Each pattern is modelled by a predicate saying when a decomposition of
    the line satisfies it (the regex matches iff one exists), an extraction
    function, and a lemma saying that the extraction finds the decomposition
    the backtracking engine settles on: greedy `.*` prefers the decomposition
    whose capture group starts furthest to the right. */
module Patterns {
  import opened Base
  import opened Text
  import opened Dates

  // ---------------------------------------------------------------------
  // Dependencies: `^.*depends.*https://.*/(\d+)$`

  /** "depends" at `i`, "https://" at `j`, a `/` at `k`, and a non-empty
      digit run from `k + 1` to the end of the line (the capture group). */
  predicate DependencyMatch(line: string, i: int, j: int, k: int) {
    OccursAt(line, "depends", i) && i + 7 <= j && OccursAt(line, "https://", j)
    && j + 8 <= k && k + 1 < |line| && line[k] == '/' && IsDigits(line[k + 1..])
  }

  ghost predicate MatchesDependency(line: string) {
    exists i, j, k :: DependencyMatch(line, i, j, k)
  }

  /** The index of the last `/` before index `hi`. */
  function LastSlash(line: string, hi: nat): (r: Option<nat>)
    requires hi <= |line|
    ensures r.Some? ==> r.value < hi && line[r.value] == '/' && forall q | r.value < q < hi :: line[q] != '/'
    ensures r.None? ==> forall q | 0 <= q < hi :: line[q] != '/'
  {
    if hi == 0 then None
    else if line[hi - 1] == '/' then Some(hi - 1)
    else LastSlash(line, hi - 1)
  }

  /** The dependency a line contributes: the digits after the last `/`. */
  function DependencyOf(line: string): Option<nat> {
    match LastSlash(line, |line|)
    case None => None
    case Some(k) =>
      if k + 1 < |line| && IsDigits(line[k + 1..]) then
        match FindFrom(line, "depends", 0)
        case None => None
        case Some(i) =>
          match FindFrom(line, "https://", i + 7)
          case None => None
          case Some(j) => if j + 8 <= k then Some(DigitsValue(line[k + 1..])) else None
      else None
  }

  /** Every match captures the digits after the last `/`, and
      `DependencyOf` finds them. */
  lemma {:induction false} DependencyMatchFound(line: string, i: int, j: int, k: int)
    requires DependencyMatch(line, i, j, k)
    ensures DependencyOf(line) == Some(DigitsValue(line[k + 1..]))
  {
    var slash := LastSlash(line, |line|);
    assert slash.Some?;
    var k0 := slash.value;
    assert k0 == k;
    var fi := FindFrom(line, "depends", 0);
    assert fi.Some? && fi.value <= i;
    var fj := FindFrom(line, "https://", fi.value + 7);
    assert fj.Some? && fj.value <= j;
  }

  /** `DependencyOf` answers exactly when the pattern matches, and returns
      `int` of the captured group (which every match captures alike). */
  lemma {:induction false} DependencyOfMatches(line: string)
    ensures DependencyOf(line).Some? <==> MatchesDependency(line)
    ensures forall i, j, k | DependencyMatch(line, i, j, k) :: DependencyOf(line) == Some(DigitsValue(line[k + 1..]))
  {
    forall i, j, k | DependencyMatch(line, i, j, k)
      ensures DependencyOf(line) == Some(DigitsValue(line[k + 1..]))
    {
      DependencyMatchFound(line, i, j, k);
    }
    if DependencyOf(line).Some? {
      var k := LastSlash(line, |line|).value;
      var i := FindFrom(line, "depends", 0).value;
      var j := FindFrom(line, "https://", i + 7).value;
      assert DependencyMatch(line, i, j, k);
    }
  }

  // ---------------------------------------------------------------------
  // Duration: `.*duration.* (\d+).*d.*`

  /** "duration" at `i`, a space at `p`, the captured digits at `p+1..e`,
      and a `d` at `t` further on. */
  predicate DurationMatch(line: string, i: int, p: int, e: int, t: int) {
    OccursAt(line, "duration", i) && i + 8 <= p && p + 1 < e <= t < |line|
    && line[p] == ' ' && IsDigits(line[p + 1..e]) && line[t] == 'd'
  }

  /** A space at `p` followed by a digit, with a `d` somewhere after it. */
  predicate DurationStartAt(line: string, p: nat) {
    p + 1 < |line| && line[p] == ' ' && IsDigit(line[p + 1]) && 'd' in line[p + 1..]
  }

  /** The rightmost duration start in `lo..hi`. */
  function LastDurationStart(line: string, lo: nat, hi: nat): (r: Option<nat>)
    decreases hi
    ensures r.Some? ==> lo <= r.value < hi && DurationStartAt(line, r.value)
                        && forall q | r.value < q < hi :: !DurationStartAt(line, q)
    ensures r.None? ==> forall q | lo <= q < hi :: !DurationStartAt(line, q)
  {
    if hi <= lo then None
    else if DurationStartAt(line, hi - 1) then Some(hi - 1)
    else LastDurationStart(line, lo, hi - 1)
  }

  /** The captured group `(p, e)` (digits at `p+1..e`) the engine reports. */
  function DurationGroup(line: string): Option<(nat, nat)> {
    match FindFrom(line, "duration", 0)
    case None => None
    case Some(i) =>
      match LastDurationStart(line, i + 8, |line|)
      case None => None
      case Some(p) => Some((p, RunEnd(line, p + 1)))
  }

  /** The duration a line contributes. */
  function DurationOf(line: string): Option<nat> {
    match DurationGroup(line)
    case None => None
    case Some(g) => Some(DigitsValue(line[g.0 + 1..g.1]))
  }

  /** The pattern matches iff `DurationGroup` answers, and the group it
      answers is the match with the rightmost space and longest digit run:
      the one greedy backtracking reports. */
  lemma {:induction false} DurationGroupIsGreedyMatch(line: string)
    ensures match DurationGroup(line)
      case None => forall i, p, e, t :: !DurationMatch(line, i, p, e, t)
      case Some(g) =>
        (exists i, t :: DurationMatch(line, i, g.0, g.1, t))
        && forall i, p, e, t | DurationMatch(line, i, p, e, t) :: p < g.0 || (p == g.0 && e <= g.1)
  {
    var fi := FindFrom(line, "duration", 0);
    forall i, p, e, t | DurationMatch(line, i, p, e, t)
      ensures fi.Some? && fi.value + 8 <= p && DurationStartAt(line, p) && RunEnd(line, p + 1) >= e
    {
      assert line[p + 1] == line[p + 1..e][0];
      assert line[t] == line[p + 1..][t - p - 1];
    }
    match DurationGroup(line)
    case None =>
    case Some(g) =>
      var i := fi.value;
      var p := g.0;
      var e := g.1;
      assert DurationStartAt(line, p);
      var t :| p + 1 <= t < |line| && line[t] == 'd' by {
        var k :| 0 <= k < |line[p + 1..]| && line[p + 1..][k] == 'd';
        assert line[p + 1 + k] == 'd';
      }
      assert e <= t;
      DigitsBetween(line, p + 1, e);
      assert DurationMatch(line, i, p, e, t);
  }

  // ---------------------------------------------------------------------
  // Earliest start: `.*earliest.*(\d+/\d+/\d+).*`

  /** "earliest" at `i` and the captured group at `p..c`: month digits
      `p..a`, `/`, day digits `a+1..b`, `/`, year digits `b+1..c`. */
  predicate EarliestMatch(line: string, i: int, p: int, a: int, b: int, c: int) {
    OccursAt(line, "earliest", i) && i + 8 <= p < a && a + 1 < b && b + 1 < c <= |line|
    && IsDigits(line[p..a]) && line[a] == '/' && IsDigits(line[a + 1..b]) && line[b] == '/'
    && IsDigits(line[b + 1..c])
  }

  /** A `digits/digits/digit` token can start at `p`. */
  predicate DateStartAt(line: string, p: nat) {
    p < |line| && IsDigit(line[p])
    && var a := RunEnd(line, p);
    a + 1 < |line| && line[a] == '/' && IsDigit(line[a + 1])
    && var b := RunEnd(line, a + 1);
    b + 1 < |line| && line[b] == '/' && IsDigit(line[b + 1])
  }

  /** Positions `p, a, b, c` of a captured date token. */
  datatype Group = Group(p: nat, a: nat, b: nat, c: nat)

  /** The rightmost date-token start in `lo..hi`. */
  function LastDateStart(line: string, lo: nat, hi: nat): (r: Option<nat>)
    decreases hi
    ensures r.Some? ==> lo <= r.value < hi && DateStartAt(line, r.value)
                        && forall q | r.value < q < hi :: !DateStartAt(line, q)
    ensures r.None? ==> forall q | lo <= q < hi :: !DateStartAt(line, q)
  {
    if hi <= lo then None
    else if DateStartAt(line, hi - 1) then Some(hi - 1)
    else LastDateStart(line, lo, hi - 1)
  }

  function EarliestGroup(line: string): (r: Option<Group>)
    ensures r.Some? ==>
      var g := r.value;
      && FindFrom(line, "earliest", 0).Some? && FindFrom(line, "earliest", 0).value + 8 <= g.p
      && g.p < g.a && g.a + 1 < g.b && g.b + 1 < g.c <= |line|
      && IsDigits(line[g.p..g.a]) && line[g.a] == '/' && IsDigits(line[g.a + 1..g.b]) && line[g.b] == '/'
      && IsDigits(line[g.b + 1..g.c])
  {
    match FindFrom(line, "earliest", 0)
    case None => None
    case Some(i) =>
      match LastDateStart(line, i + 8, |line|)
      case None => None
      case Some(p) =>
        var a := RunEnd(line, p);
        var b := RunEnd(line, a + 1);
        var c := RunEnd(line, b + 1);
        DigitsBetween(line, p, a);
        DigitsBetween(line, a + 1, b);
        DigitsBetween(line, b + 1, c);
        Some(Group(p, a, b, c))
  }

  /** What any match of the pattern says about the line. */
  lemma {:induction false} EarliestMatchFacts(line: string, i: int, p: int, a: int, b: int, c: int)
    requires EarliestMatch(line, i, p, a, b, c)
    ensures FindFrom(line, "earliest", 0).Some? && FindFrom(line, "earliest", 0).value + 8 <= p
    ensures RunEnd(line, p) == a && RunEnd(line, a + 1) == b && c <= RunEnd(line, b + 1)
    ensures DateStartAt(line, p)
  {
    DigitsAt(line, p, a);
    DigitsAt(line, a + 1, b);
    DigitsAt(line, b + 1, c);
    DigitRunIsRunEnd(line, p, a);
    DigitRunIsRunEnd(line, a + 1, b);
  }

  /** The pattern matches iff `EarliestGroup` answers; the group it answers
      is the match starting furthest right, with the longest year run. */
  lemma {:induction false} EarliestGroupIsGreedyMatch(line: string)
    ensures match EarliestGroup(line)
      case None => forall i, p, a, b, c :: !EarliestMatch(line, i, p, a, b, c)
      case Some(g) =>
        (exists i :: EarliestMatch(line, i, g.p, g.a, g.b, g.c))
        && forall i, p, a, b, c | EarliestMatch(line, i, p, a, b, c) ::
             p < g.p || (p == g.p && a == g.a && b == g.b && c <= g.c)
  {
    forall i, p, a, b, c | EarliestMatch(line, i, p, a, b, c)
      ensures EarliestGroup(line).Some?
      ensures p < EarliestGroup(line).value.p
              || (p == EarliestGroup(line).value.p && a == EarliestGroup(line).value.a
                  && b == EarliestGroup(line).value.b && c <= EarliestGroup(line).value.c)
    {
      EarliestMatchFacts(line, i, p, a, b, c);
    }
    if EarliestGroup(line).Some? {
      var g := EarliestGroup(line).value;
      var i := FindFrom(line, "earliest", 0).value;
      assert EarliestMatch(line, i, g.p, g.a, g.b, g.c);
    }
  }

  /** A digit run ended by a non-digit ends where `RunEnd` says. */
  lemma {:induction false} DigitRunIsRunEnd(line: string, p: nat, a: nat)
    requires p < a < |line| && IsDigits(line[p..a]) && !IsDigit(line[a])
    ensures RunEnd(line, p) == a
  {
    DigitsAt(line, p, a);
  }

  lemma {:induction false} DigitsAt(line: string, p: nat, a: nat)
    requires p <= a <= |line| && IsDigits(line[p..a])
    ensures forall k | p <= k < a :: IsDigit(line[k])
  {
    forall k | p <= k < a ensures IsDigit(line[k]) {
      assert line[p..a][k - p] == line[k];
    }
  }

  lemma {:induction false} DigitsBetween(line: string, p: nat, a: nat)
    requires p <= a <= |line| && forall k | p <= k < a :: IsDigit(line[k])
    ensures IsDigits(line[p..a])
  {
    forall k | 0 <= k < a - p ensures IsDigit(line[p..a][k]) {
      assert line[p..a][k] == line[p + k];
    }
  }

  /** A date token preceded by a digit can also start one position later,
      with the same month-run end. */
  lemma {:induction false} DateStartSkipsLeadingDigit(line: string, p: nat)
    requires DateStartAt(line, p)
    ensures p + 1 < |line| && IsDigit(line[p + 1]) ==> DateStartAt(line, p + 1) && RunEnd(line, p + 1) == RunEnd(line, p)
  {
    if p + 1 < |line| && IsDigit(line[p + 1]) {
      assert RunEnd(line, p) == RunEnd(line, p + 1);
    }
  }

  /** Greedy matching leaves the month group a single digit: `12/25/2025`
      is read as `2/25/2025` and `10/01/2025` as `0/01/2025`. */
  lemma {:induction false} EarliestMonthIsOneDigit(line: string)
    requires EarliestGroup(line).Some?
    ensures EarliestGroup(line).value.a == EarliestGroup(line).value.p + 1
  {
    var g := EarliestGroup(line).value;
    DateStartSkipsLeadingDigit(line, g.p);
  }

  /** `datetime.strptime(token, "%m/%d/%Y").date()` for a token of three
      digit runs. `%m` accepts one or two digits worth 1 to 12, `%d` one or
      two digits worth 1 to 31, `%Y` exactly four digits (a longer run
      leaves unconverted data); the date must then exist. Every failure is
      a `ValueError`. */
  function StrpTime(month: string, day: string, year: string): (r: Result<ValidDate>)
    requires IsDigits(month) && IsDigits(day) && IsDigits(year)
    ensures r.Ok? <==> 1 <= |month| <= 2 && 1 <= |day| <= 2 && |year| == 4
                       && IsValid(Date(DigitsValue(year), DigitsValue(month), DigitsValue(day)))
    ensures r.Ok? ==> r.value == Date(DigitsValue(year), DigitsValue(month), DigitsValue(day))
    ensures r.Err? ==> r.error == ValueError
  {
    if 1 <= |month| <= 2 && 1 <= |day| <= 2 && |year| == 4 then
      var m, d, y := DigitsValue(month), DigitsValue(day), DigitsValue(year);
      FourDigitsBound(year);
      if 1 <= m <= 12 && 1 <= d <= 31 && MinYear <= y && d <= DaysInMonth(y, m) then Ok(Date(y, m, d))
      else Err(ValueError)
    else Err(ValueError)
  }

  function Pow10(n: nat): nat {
    if n == 0 then 1 else 10 * Pow10(n - 1)
  }

  /** A run of `n` digits is worth less than `10^n`. */
  lemma {:induction false} DigitsValueBound(s: string)
    requires IsDigits(s)
    ensures DigitsValue(s) < Pow10(|s|)
  {
    if s != [] {
      var init := s[..|s| - 1];
      assert IsDigit(s[|s| - 1]);
      DigitsValueBound(init);
    }
  }

  lemma {:induction false} FourDigitsBound(s: string)
    requires IsDigits(s) && |s| == 4
    ensures DigitsValue(s) <= 9999
  {
    DigitsValueBound(s);
    assert Pow10(4) == 10000;
  }

  /** `strptime` reads back a date written as `M/D/YYYY` (no zero padding),
      for every valid date with a four-digit year. */
  lemma {:induction false} StrpTimeReadsWrittenDates(d: ValidDate)
    requires 1000 <= d.year
    ensures IsDigits(DecimalString(d.month)) && IsDigits(DecimalString(d.day)) && IsDigits(DecimalString(d.year))
    ensures StrpTime(DecimalString(d.month), DecimalString(d.day), DecimalString(d.year)) == Ok(d)
  {
    DecimalStringRoundTrip(d.month);
    DecimalStringRoundTrip(d.day);
    DecimalStringRoundTrip(d.year);
    DecimalStringLength(d.month);
    DecimalStringLength(d.day);
    DecimalStringLength(d.year);
  }

  lemma {:induction false} DecimalStringLength(n: nat)
    ensures n < 10 ==> |DecimalString(n)| == 1
    ensures 10 <= n < 100 ==> |DecimalString(n)| == 2
    ensures 100 <= n < 1000 ==> |DecimalString(n)| == 3
    ensures 1000 <= n < 10000 ==> |DecimalString(n)| == 4
  {
    if n >= 10 {
      DecimalStringLength(n / 10);
    }
  }

  /** The earliest-start date a line contributes: `None` when the pattern
      does not match, otherwise what `strptime` makes of the token. */
  function EarliestOf(line: string): (r: Option<Result<ValidDate>>)
    ensures r.Some? && r.value.Err? ==> r.value.error == ValueError
  {
    match EarliestGroup(line)
    case None => None
    case Some(g) => Some(StrpTime(line[g.p..g.a], line[g.a + 1..g.b], line[g.b + 1..g.c]))
  }

  /** A line gives an earliest date exactly when the pattern matches and
      `strptime` accepts the token; since the month is a single digit, the
      date is never in October, November or December. */
  lemma {:induction false} EarliestOfMonth(line: string)
    ensures EarliestOf(line).Some? <==> EarliestGroup(line).Some?
    ensures EarliestOf(line).Some? && EarliestOf(line).value.Ok? ==> 1 <= EarliestOf(line).value.value.month <= 9
  {
    if EarliestGroup(line).Some? {
      var g := EarliestGroup(line).value;
      EarliestMonthIsOneDigit(line);
      DigitsValueBound(line[g.p..g.a]);
      assert Pow10(1) == 10;
    }
  }

  /** A month run ending in `0` leaves the token a month of `0`, which
      `strptime` rejects. */
  lemma {:induction false} EarliestZeroMonthRaises(line: string)
    requires EarliestGroup(line).Some? && line[EarliestGroup(line).value.p] == '0'
    ensures EarliestOf(line) == Some(Err(ValueError))
  {
    var g := EarliestGroup(line).value;
    EarliestMonthIsOneDigit(line);
    var m := line[g.p..g.a];
    assert m[0] == line[g.p] == '0';
    assert DigitsValue(m) == 10 * DigitsValue(m[..0]) + 0;
    assert EarliestOf(line) == Some(StrpTime(m, line[g.a + 1..g.b], line[g.b + 1..g.c]));
  }

  /** In `earliest mm/dd/yyyy` the token starts at the second month digit. */
  lemma {:induction false} TwoDigitMonthGroup(line: string)
    requires |line| == 19 && line[..9] == "earliest "
    requires IsDigit(line[9]) && IsDigit(line[10]) && line[11] == '/' && IsDigit(line[12]) && IsDigit(line[13])
    requires line[14] == '/' && forall k | 15 <= k < 19 :: IsDigit(line[k])
    ensures EarliestGroup(line) == Some(Group(10, 11, 14, 19))
  {
    assert line[0..8] == line[..9][..8] == "earliest";
    assert FindFrom(line, "earliest", 0) == Some(0);
    assert RunEnd(line, 19) == 19;
    assert RunEnd(line, 15) == 19;
    assert RunEnd(line, 12) == 14;
    assert RunEnd(line, 10) == 11;
    assert DateStartAt(line, 10);
    assert forall q | 10 < q < 19 :: !DateStartAt(line, q);
    assert LastDateStart(line, 8, 19) == Some(10);
  }

  /** The digit values of the example below. */
  lemma {:induction false} DecemberDigits()
    ensures IsDigits("2") && IsDigits("25") && IsDigits("2025")
    ensures DigitsValue("2") == 2 && DigitsValue("25") == 25 && DigitsValue("2025") == 2025
  {
    assert "25"[..1] == "2";
    assert "2025"[..3] == "202" && "202"[..2] == "20" && "20"[..1] == "2";
    assert DigitsValue("20") == 20;
    assert DigitsValue("202") == 202;
  }

  /** A December date is read as February. */
  lemma {:induction false} DecemberReadAsFebruary()
    ensures EarliestOf("earliest 12/25/2025") == Some(Ok(Date(2025, 2, 25)))
  {
    var line := "earliest 12/25/2025";
    TwoDigitMonthGroup(line);
    assert line[10..11] == "2" && line[12..14] == "25" && line[15..19] == "2025";
    DecemberDigits();
    assert IsValid(Date(2025, 2, 25));
  }

  /** An October date raises `ValueError`. */
  lemma {:induction false} OctoberRaises()
    ensures EarliestOf("earliest 10/01/2025") == Some(Err(ValueError))
  {
    var line := "earliest 10/01/2025";
    TwoDigitMonthGroup(line);
    EarliestZeroMonthRaises(line);
  }

  /** What one line contributes: each pattern's result, independently. */
  datatype Fields = Fields(dependency: Option<nat>, duration: Option<nat>, earliest: Option<Result<ValidDate>>)

  function FieldsOf(line: string): Fields {
    Fields(DependencyOf(line), DurationOf(line), EarliestOf(line))
  }
}
