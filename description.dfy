/** The issue-description parser (`process_space_item_description`).

    The description is trimmed and split into lines; each line is trimmed
    and lower-cased. Blank lines are skipped and the first line starting
    with `---` ends the scan. Every other line is matched against the three
    patterns of module `Patterns`: a dependency is appended to the list, a
    duration or an earliest-start date replaces the one seen before, and a
    date token `strptime` rejects raises `ValueError`, which aborts the
    whole parse.

    The specification (`Parse`) is declarative: the lines that are scanned,
    what each contributes, and how contributions combine. The method
    `ParseDescription` is the loop itself. */
module Description {
  import opened Base
  import opened Text
  import opened Dates
  import opened Patterns

  /** The parser's result: dependencies in line order (duplicates kept),
      the duration in days (1 by default) and the earliest-start date. */
  datatype Parsed = Parsed(dependencies: seq<nat>, duration: nat, earliest: Option<ValidDate>)

  // ---------------------------------------------------------------------
  // Which lines are scanned

  /** `line.strip().lower()`. */
  function Clean(line: string): string {
    ToLower(Strip(line))
  }

  /** The cleaned form of every line. */
  function CleanAll(lines: seq<string>): (cs: seq<string>)
    ensures |cs| == |lines|
  {
    if lines == [] then [] else [Clean(lines[0])] + CleanAll(lines[1..])
  }

  lemma {:induction false} CleanAllAt(lines: seq<string>, i: nat)
    requires i < |lines|
    ensures CleanAll(lines)[i] == Clean(lines[i])
  {
    if i > 0 {
      CleanAllAt(lines[1..], i - 1);
    }
  }

  /** `line.startswith("---")`. */
  predicate IsStop(c: string) {
    |c| >= 3 && c[0] == '-' && c[1] == '-' && c[2] == '-'
  }

  lemma {:induction false} IsStopStartsWith(c: string)
    ensures IsStop(c) <==> StartsWith(c, "---")
  {
    if StartsWith(c, "---") {
      assert c[..3][0] == c[0] && c[..3][1] == c[1] && c[..3][2] == c[2];
    }
    if IsStop(c) {
      assert c[..3] == "---";
    }
  }

  /** The index of the first cleaned line that ends the scan, or `|cs|`. */
  function StopIndex(cs: seq<string>): (k: nat)
    ensures k <= |cs|
    ensures k < |cs| ==> IsStop(cs[k])
    ensures forall j | 0 <= j < k :: !IsStop(cs[j])
  {
    if cs == [] then 0
    else if IsStop(cs[0]) then 0
    else 1 + StopIndex(cs[1..])
  }

  /** `StopIndex` is the only index with its defining property. */
  lemma {:induction false} StopIndexIs(cs: seq<string>, k: nat)
    requires k <= |cs| && (k < |cs| ==> IsStop(cs[k]))
    requires forall j | 0 <= j < k :: !IsStop(cs[j])
    ensures StopIndex(cs) == k
  {
  }

  lemma {:induction false} StopIndexConcat(x: seq<string>, y: seq<string>)
    ensures StopIndex(x + y) == if StopIndex(x) < |x| then StopIndex(x) else |x| + StopIndex(y)
  {
    if x != [] {
      assert (x + y)[0] == x[0];
      assert (x + y)[1..] == x[1..] + y;
      if !IsStop(x[0]) {
        StopIndexConcat(x[1..], y);
      }
    } else {
      assert x + y == y;
    }
  }

  /** The non-blank lines among `cs`, in order. */
  function NonBlank(cs: seq<string>): seq<string> {
    if cs == [] then []
    else NonBlank(cs[..|cs| - 1]) + (if cs[|cs| - 1] == [] then [] else [cs[|cs| - 1]])
  }

  lemma {:induction false} NonBlankAppend(cs: seq<string>, c: string)
    ensures NonBlank(cs + [c]) == NonBlank(cs) + (if c == [] then [] else [c])
  {
    assert (cs + [c])[..|cs|] == cs;
  }

  lemma {:induction false} NonBlankConcat(x: seq<string>, y: seq<string>)
    ensures NonBlank(x + y) == NonBlank(x) + NonBlank(y)
    decreases |y|
  {
    if y != [] {
      var y0 := y[..|y| - 1];
      var c := y[|y| - 1];
      assert x + y == (x + y0) + [c];
      assert y == y0 + [c];
      NonBlankAppend(x + y0, c);
      NonBlankAppend(y0, c);
      NonBlankConcat(x, y0);
    } else {
      assert x + y == x;
    }
  }

  /** The lines the parser looks at: non-blank and before the stop line. */
  function Scanned(cs: seq<string>): seq<string> {
    NonBlank(cs[..StopIndex(cs)])
  }

  /** Scanning two stretches of lines one after the other: the second is
      only reached when the first holds no stop line. */
  lemma {:induction false} ScannedConcat(x: seq<string>, y: seq<string>)
    ensures Scanned(x + y) == if StopIndex(x) < |x| then Scanned(x) else NonBlank(x) + Scanned(y)
  {
    StopIndexConcat(x, y);
    if StopIndex(x) < |x| {
      ScannedConcatStopped(x, y);
    } else {
      ScannedConcatThrough(x, y);
    }
  }

  lemma {:induction false} ScannedConcatStopped(x: seq<string>, y: seq<string>)
    requires StopIndex(x) < |x| && StopIndex(x + y) == StopIndex(x)
    ensures Scanned(x + y) == Scanned(x)
  {
    var k := StopIndex(x);
    assert (x + y)[..k] == x[..k];
  }

  lemma {:induction false} ScannedConcatThrough(x: seq<string>, y: seq<string>)
    requires StopIndex(x) == |x| && StopIndex(x + y) == |x| + StopIndex(y)
    ensures Scanned(x + y) == NonBlank(x) + Scanned(y)
  {
    var s := StopIndex(y);
    assert (x + y)[..|x| + s] == x + y[..s];
    NonBlankConcat(x, y[..s]);
  }

  // ---------------------------------------------------------------------
  // How the contributions of the scanned lines combine

  /** What each scanned line contributes, line by line. */
  function FieldsAll(analyse: string -> Fields, ss: seq<string>): (fs: seq<Fields>)
    ensures |fs| == |ss|
  {
    if ss == [] then [] else FieldsAll(analyse, ss[..|ss| - 1]) + [analyse(ss[|ss| - 1])]
  }

  lemma {:induction false} FieldsAllAt(analyse: string -> Fields, ss: seq<string>, k: nat)
    requires k < |ss|
    ensures FieldsAll(analyse, ss)[k] == analyse(ss[k])
    decreases |ss|
  {
    if k < |ss| - 1 {
      FieldsAllAt(analyse, ss[..|ss| - 1], k);
    }
  }

  lemma {:induction false} FieldsAllAppend(analyse: string -> Fields, ss: seq<string>, c: string)
    ensures FieldsAll(analyse, ss + [c]) == FieldsAll(analyse, ss) + [analyse(c)]
  {
    assert (ss + [c])[..|ss|] == ss;
  }

  predicate IsBadDate(f: Fields) {
    f.earliest.Some? && f.earliest.value.Err?
  }

  predicate HasBadDate(fs: seq<Fields>) {
    exists k | 0 <= k < |fs| :: IsBadDate(fs[k])
  }

  /** The dependencies, in line order, duplicates kept. */
  function Dependencies(fs: seq<Fields>): seq<nat> {
    if fs == [] then []
    else
      var f := fs[|fs| - 1];
      Dependencies(fs[..|fs| - 1]) + if f.dependency.Some? then [f.dependency.value] else []
  }

  /** The duration of the last line that gives one; 1 if none does. */
  function LastDuration(fs: seq<Fields>): nat {
    if fs == [] then 1
    else fs[|fs| - 1].duration.GetOr(LastDuration(fs[..|fs| - 1]))
  }

  /** The date of the last line that gives a readable one. */
  function LastEarliest(fs: seq<Fields>): Option<ValidDate> {
    if fs == [] then None
    else
      var e := fs[|fs| - 1].earliest;
      if e.Some? && e.value.Ok? then Some(e.value.value) else LastEarliest(fs[..|fs| - 1])
  }

  /** The outcome of the contributions `fs`. `strptime` raises on the first
      bad date token; since raising discards everything, the outcome is an
      error iff some scanned line holds one. */
  function Combine(fs: seq<Fields>): Result<Parsed> {
    if HasBadDate(fs) then Err(ValueError)
    else Ok(Parsed(Dependencies(fs), LastDuration(fs), LastEarliest(fs)))
  }

  /** The parse of a list of cleaned lines, given what a line contributes
      (`analyse`; the parser itself uses `FieldsOf`). Which lines are
      scanned and how their contributions combine do not depend on the
      patterns, so the properties below hold for any `analyse`. */
  function ParseCleaned(analyse: string -> Fields, cs: seq<string>): Result<Parsed> {
    Combine(FieldsAll(analyse, Scanned(cs)))
  }

  /** `process_space_item_description(description)`. */
  function Parse(description: string): (r: Result<Parsed>)
    ensures r.Err? ==> r.error == ValueError
  {
    ParseCleaned(FieldsOf, CleanAll(SplitLines(Strip(description))))
  }

  /** Lines that differ only in the case of their letters clean to the
      same line. */
  lemma {:induction false} CleanIgnoresCase(a: string, b: string)
    requires ToLower(a) == ToLower(b)
    ensures Clean(a) == Clean(b)
  {
    StripIgnoresCase(a, b);
  }

  /** The parse does not depend on case: descriptions that differ only in
      the case of their letters parse alike. */
  lemma {:induction false} ParseIgnoresCase(x: string, y: string)
    requires ToLower(x) == ToLower(y)
    ensures Parse(x) == Parse(y)
  {
    StripIgnoresCase(x, y);
    var lx, ly := SplitLines(Strip(x)), SplitLines(Strip(y));
    SplitLinesIgnoreCase(Strip(x), Strip(y));
    forall i | 0 <= i < |lx|
      ensures CleanAll(lx)[i] == CleanAll(ly)[i]
    {
      CleanAllAt(lx, i);
      CleanAllAt(ly, i);
      CleanIgnoresCase(lx[i], ly[i]);
    }
    assert CleanAll(lx) == CleanAll(ly);
  }

  /** What one more scanned line does to a parse in progress. */
  function ApplyFields(acc: Result<Parsed>, f: Fields): Result<Parsed> {
    match acc
    case Err(e) => Err(e)
    case Ok(p) =>
      if IsBadDate(f) then Err(ValueError)
      else
        Ok(Parsed(p.dependencies + (if f.dependency.Some? then [f.dependency.value] else []),
                  f.duration.GetOr(p.duration),
                  if f.earliest.Some? then Some(f.earliest.value.value) else p.earliest))
  }

  lemma {:induction false} HasBadDateAppend(fs: seq<Fields>, f: Fields)
    ensures HasBadDate(fs + [f]) <==> HasBadDate(fs) || IsBadDate(f)
  {
    var fs' := fs + [f];
    if HasBadDate(fs) {
      var k :| 0 <= k < |fs| && IsBadDate(fs[k]);
      assert fs'[k] == fs[k];
    }
    if IsBadDate(f) {
      assert fs'[|fs|] == f;
    }
    if HasBadDate(fs') && !IsBadDate(f) {
      var k :| 0 <= k < |fs'| && IsBadDate(fs'[k]);
      assert fs'[k] == fs[k];
    }
  }

  /** Combining one more contribution is applying it. */
  lemma {:induction false} CombineAppend(fs: seq<Fields>, f: Fields)
    ensures Combine(fs + [f]) == ApplyFields(Combine(fs), f)
  {
    HasBadDateAppend(fs, f);
    assert (fs + [f])[..|fs|] == fs;
    assert (fs + [f])[|fs|] == f;
  }

  // ---------------------------------------------------------------------
  // Properties of the parse

  /** Appending a line that does not stop the scan applies that line: its
      dependency (if any) goes after the earlier ones, its duration and date
      (if any) replace the earlier ones, a bad date makes it an error, and a
      blank line changes nothing. One line may contribute all three. */
  lemma {:induction false} ParseAppendLine(analyse: string -> Fields, cs: seq<string>, c: string)
    requires StopIndex(cs) == |cs|
    requires !IsStop(c)
    ensures StopIndex(cs + [c]) == |cs| + 1
    ensures ParseCleaned(analyse, cs + [c]) == if c == [] then ParseCleaned(analyse, cs) else ApplyFields(ParseCleaned(analyse, cs), analyse(c))
  {
    ScannedAppendLine(cs, c);
    if c != [] {
      FieldsAllAppend(analyse, Scanned(cs), c);
      CombineAppend(FieldsAll(analyse, Scanned(cs)), analyse(c));
    } else {
      assert Scanned(cs) + [] == Scanned(cs);
    }
  }

  lemma {:induction false} ScannedAppendLine(cs: seq<string>, c: string)
    requires StopIndex(cs) == |cs|
    requires !IsStop(c)
    ensures StopIndex(cs + [c]) == |cs| + 1
    ensures Scanned(cs + [c]) == Scanned(cs) + if c == [] then [] else [c]
  {
    StopIndexIs([c], 1);
    StopIndexConcat(cs, [c]);
    ScannedConcatThrough(cs, [c]);
    assert [c][..1] == [c];
    NonBlankAppend([], c);
    assert [] + [c] == [c];
    assert cs[..|cs|] == cs;
  }

  /** Nothing at or after the first stop line affects the parse. */
  lemma {:induction false} ParseIgnoresAfterStop(analyse: string -> Fields, cs: seq<string>, rest: seq<string>)
    requires StopIndex(cs) < |cs|
    ensures ParseCleaned(analyse, cs + rest) == ParseCleaned(analyse, cs)
    ensures ParseCleaned(analyse, cs) == ParseCleaned(analyse, cs[..StopIndex(cs)])
  {
    var k := StopIndex(cs);
    ScannedConcat(cs, rest);
    assert forall j | 0 <= j < k :: cs[..k][j] == cs[j];
    StopIndexIs(cs[..k], k);
    assert cs[..k][..k] == cs[..k];
  }

  /** Blank lines (empty once trimmed) never affect the parse. */
  lemma {:induction false} ParseSkipsBlankLines(analyse: string -> Fields, x: seq<string>, y: seq<string>)
    ensures ParseCleaned(analyse, x + [[]] + y) == ParseCleaned(analyse, x + y)
  {
    var b: string := [];
    assert x + [b] + y == x + ([b] + y);
    StopIndexIs([b], 1);
    NonBlankAppend([], b);
    assert [] + [b] == [b];
    ScannedConcat([b], y);
    assert Scanned([b] + y) == Scanned(y);
    ScannedConcat(x, [b] + y);
    ScannedConcat(x, y);
  }

  /** With no recognised line, the parse is `([], 1, None)`. */
  lemma {:induction false} NothingRecognised(fs: seq<Fields>)
    requires forall k | 0 <= k < |fs| :: fs[k] == Fields(None, None, None)
    ensures Combine(fs) == Ok(Parsed([], 1, None))
  {
    if fs != [] {
      var init, last := fs[..|fs| - 1], fs[|fs| - 1];
      NothingRecognised(init);
      CombineAppend(init, last);
      assert init + [last] == fs;
      assert last == Fields(None, None, None);
      assert ApplyFields(Ok(Parsed([], 1, None)), last) == Ok(Parsed([] + [], 1, None));
      var none: seq<nat> := [];
      assert none + none == none;
    }
  }

  /** A description none of whose scanned lines matches a pattern parses
      to the defaults. */
  lemma {:induction false} ParseDefaults(analyse: string -> Fields, cs: seq<string>)
    requires forall s | s in Scanned(cs) :: analyse(s) == Fields(None, None, None)
    ensures ParseCleaned(analyse, cs) == Ok(Parsed([], 1, None))
  {
    var ss := Scanned(cs);
    forall k | 0 <= k < |ss| ensures FieldsAll(analyse, ss)[k] == Fields(None, None, None) {
      FieldsAllAt(analyse, ss, k);
    }
    NothingRecognised(FieldsAll(analyse, ss));
  }

  /** The duration is that of the last line giving one, or 1. */
  lemma {:induction false} LastDurationWins(fs: seq<Fields>)
    ensures (LastDuration(fs) == 1 && forall k | 0 <= k < |fs| :: fs[k].duration.None?)
         || exists k | 0 <= k < |fs| :: fs[k].duration == Some(LastDuration(fs))
                                      && forall k' | k < k' < |fs| :: fs[k'].duration.None?
  {
    if fs != [] {
      var init := fs[..|fs| - 1];
      LastDurationWins(init);
      if fs[|fs| - 1].duration.None? {
        assert forall k | 0 <= k < |init| :: init[k] == fs[k];
      }
    }
  }

  /** Without a bad date, the earliest-start date is that of the last line
      giving one, and `None` when no line gives one. */
  lemma {:induction false} LastEarliestWins(fs: seq<Fields>)
    requires !HasBadDate(fs)
    ensures LastEarliest(fs).None? ==> forall k | 0 <= k < |fs| :: fs[k].earliest.None?
    ensures LastEarliest(fs).Some? ==>
              exists k | 0 <= k < |fs| :: fs[k].earliest == Some(Ok(LastEarliest(fs).value))
                                          && forall k' | k < k' < |fs| :: fs[k'].earliest.None?
  {
    if fs != [] {
      var init := fs[..|fs| - 1];
      var last := fs[|fs| - 1];
      assert fs == init + [last];
      HasBadDateAppend(init, last);
      LastEarliestWins(init);
      if last.earliest.None? {
        assert forall k | 0 <= k < |init| :: init[k] == fs[k];
      }
    }
  }

  /** Dependencies of consecutive stretches of lines concatenate: order is
      kept and nothing is merged. */
  lemma {:induction false} DependenciesConcat(fs: seq<Fields>, gs: seq<Fields>)
    ensures Dependencies(fs + gs) == Dependencies(fs) + Dependencies(gs)
    decreases |gs|
  {
    if gs != [] {
      var g0 := gs[..|gs| - 1];
      assert (fs + gs)[..|fs + gs| - 1] == fs + g0;
      assert (fs + gs)[|fs + gs| - 1] == gs[|gs| - 1];
      DependenciesConcat(fs, g0);
    } else {
      assert fs + gs == fs;
    }
  }

  lemma {:induction false} HasBadDateConcat(fs: seq<Fields>, gs: seq<Fields>)
    requires HasBadDate(fs)
    ensures HasBadDate(fs + gs)
  {
    var k :| 0 <= k < |fs| && IsBadDate(fs[k]);
    assert (fs + gs)[k] == fs[k];
  }

  lemma {:induction false} FieldsAllConcat(analyse: string -> Fields, ss: seq<string>, tt: seq<string>)
    ensures FieldsAll(analyse, ss + tt)[..|ss|] == FieldsAll(analyse, ss)
  {
    forall k | 0 <= k < |ss| ensures FieldsAll(analyse, ss + tt)[k] == FieldsAll(analyse, ss)[k] {
      FieldsAllAt(analyse, ss + tt, k);
      FieldsAllAt(analyse, ss, k);
    }
  }

  /** A bad date before any stop line makes the whole parse fail. */
  lemma {:induction false} PrefixErrorPersists(analyse: string -> Fields, cs: seq<string>, n: nat)
    requires n <= |cs| && StopIndex(cs[..n]) == n
    requires ParseCleaned(analyse, cs[..n]).Err?
    ensures ParseCleaned(analyse, cs) == ParseCleaned(analyse, cs[..n])
  {
    var x, y := cs[..n], cs[n..];
    assert x + y == cs;
    assert x[..n] == x;
    var ss := Scanned(x);
    assert Scanned(cs) == ss + Scanned(y) by { ScannedConcat(x, y); }
    var all := FieldsAll(analyse, ss + Scanned(y));
    var fs := FieldsAll(analyse, ss);
    assert all == fs + all[|ss|..] by { FieldsAllConcat(analyse, ss, Scanned(y)); }
    assert HasBadDate(fs);
    HasBadDateConcat(fs, all[|ss|..]);
    assert HasBadDate(all);
  }

  // ---------------------------------------------------------------------
  // The loop

  /** The scan ends at the first stop line. */
  lemma {:induction false} ScanStopsAt(analyse: string -> Fields, cs: seq<string>, i: nat)
    requires i < |cs| && StopIndex(cs[..i]) == i && IsStop(cs[i])
    ensures ParseCleaned(analyse, cs) == ParseCleaned(analyse, cs[..i])
  {
    assert forall j | 0 <= j < i :: cs[..i][j] == cs[j];
    StopIndexIs(cs, i);
    ParseIgnoresAfterStop(analyse, cs, []);
    assert cs + [] == cs;
  }

  /** One step of the loop over a line without a bad date. */
  lemma {:induction false} ScanStep(analyse: string -> Fields, cs: seq<string>, i: nat, before: Parsed, after: Parsed)
    requires i < |cs| && StopIndex(cs[..i]) == i && !IsStop(cs[i])
    requires ParseCleaned(analyse, cs[..i]) == Ok(before)
    requires cs[i] == [] ==> after == before
    requires cs[i] != [] ==> ApplyFields(Ok(before), analyse(cs[i])) == Ok(after)
    ensures StopIndex(cs[..i + 1]) == i + 1
    ensures ParseCleaned(analyse, cs[..i + 1]) == Ok(after)
  {
    assert cs[..i + 1] == cs[..i] + [cs[i]];
    ParseAppendLine(analyse, cs[..i], cs[i]);
  }

  /** A line with a bad date ends the parse with that error. */
  lemma {:induction false} ScanFails(analyse: string -> Fields, cs: seq<string>, i: nat)
    requires i < |cs| && StopIndex(cs[..i]) == i && !IsStop(cs[i]) && cs[i] != []
    requires ParseCleaned(analyse, cs[..i]).Ok?
    requires IsBadDate(analyse(cs[i]))
    ensures ParseCleaned(analyse, cs) == Err(ValueError)
  {
    assert cs[..i + 1] == cs[..i] + [cs[i]];
    ParseAppendLine(analyse, cs[..i], cs[i]);
    PrefixErrorPersists(analyse, cs, i + 1);
  }

  /** `process_space_item_description`: the loop over the lines. */
  method ParseDescription(description: string) returns (r: Result<Parsed>)
    ensures r == Parse(description)
  {
    var lines := SplitLines(Strip(description));
    ghost var cs := CleanAll(lines);
    var deps: seq<nat> := [];
    var duration: nat := 1;
    var earliest: Option<ValidDate> := None;
    var i := 0;
    assert cs[..0] == [];
    while i < |lines|
      invariant i <= |lines|
      invariant StopIndex(cs[..i]) == i
      invariant ParseCleaned(FieldsOf, cs[..i]) == Ok(Parsed(deps, duration, earliest))
    {
      var cleaned := Clean(lines[i]);
      CleanAllAt(lines, i);
      IsStopStartsWith(cleaned);
      if StartsWith(cleaned, "---") {
        ScanStopsAt(FieldsOf, cs, i);
        break;
      }
      ghost var before := Parsed(deps, duration, earliest);
      if cleaned != [] {
        var dependency := DependencyOf(cleaned);
        var days := DurationOf(cleaned);
        var start := EarliestOf(cleaned);
        assert FieldsOf(cleaned) == Fields(dependency, days, start);
        if start.Some? && start.value.Err? {
          ScanFails(FieldsOf, cs, i);
          assert start.value.error == ValueError;
          return Err(start.value.error);
        }
        if dependency.Some? {
          deps := deps + [dependency.value];
        }
        if days.Some? {
          duration := days.value;
        }
        if start.Some? {
          earliest := Some(start.value.value);
        }
        assert !IsBadDate(Fields(dependency, days, start));
        assert deps == before.dependencies + (if dependency.Some? then [dependency.value] else []);
        assert ApplyFields(Ok(before), Fields(dependency, days, start)) == Ok(Parsed(deps, duration, earliest));
      }
      ScanStep(FieldsOf, cs, i, before, Parsed(deps, duration, earliest));
      i := i + 1;
    }
    if i == |lines| {
      assert cs[..i] == cs;
    }
    r := Ok(Parsed(deps, duration, earliest));
  }
}
