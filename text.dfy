/** The string primitives the description parser relies on: Python's
    `str.strip`, `str.lower`, `str.splitlines`, `int` of a digit run and
    `f"{n}"`, restricted to the characters noted on each. */
module Text {
  import opened Base

  predicate IsDigit(c: char) {
    '0' <= c <= '9'
  }

  predicate IsDigits(s: string) {
    forall i | 0 <= i < |s| :: IsDigit(s[i])
  }

  /** `int(s)` for a run of ASCII digits (leading zeros allowed). */
  function DigitsValue(s: string): nat
    requires IsDigits(s)
  {
    if s == [] then 0
    else 10 * DigitsValue(s[..|s| - 1]) + (s[|s| - 1] as int - '0' as int)
  }

  function DigitChar(d: nat): (c: char)
    requires d < 10
    ensures IsDigit(c) && c as int - '0' as int == d
  {
    ('0' as int + d) as char
  }

  /** Decimal rendering of a natural number, as `str(n)` gives it. */
  function DecimalString(n: nat): string
  {
    if n < 10 then [DigitChar(n)] else DecimalString(n / 10) + [DigitChar(n % 10)]
  }

  /** `str(i)` of an integer: a minus sign for negative values. */
  function IntToString(i: int): string
  {
    if i < 0 then "-" + DecimalString(-i) else DecimalString(i)
  }

  /** `int` undoes `str` on natural numbers, and `str` writes no leading zero. */
  lemma {:induction false} DecimalStringRoundTrip(n: nat)
    ensures IsDigits(DecimalString(n))
    ensures DigitsValue(DecimalString(n)) == n
    ensures 0 < |DecimalString(n)| && (DecimalString(n)[0] == '0' ==> n == 0)
  {
    if n >= 10 {
      DecimalStringRoundTrip(n / 10);
      var s := DecimalString(n);
      assert s[..|s| - 1] == DecimalString(n / 10);
    }
  }

  /** Python's `str.isspace` (what `str.strip()` removes). */
  predicate IsSpace(c: char) {
    c == ' ' || ('\t' <= c <= '\r') || ('\U{1c}' <= c <= '\U{1f}') || c == '\U{85}' || c == '\U{a0}'
    || c == '\U{1680}' || ('\U{2000}' <= c <= '\U{200a}') || c == '\U{2028}' || c == '\U{2029}'
    || c == '\U{202f}' || c == '\U{205f}' || c == '\U{3000}'
  }

  /** The characters at which `str.splitlines` breaks (`\r\n` counts as one break). */
  predicate IsLineBreak(c: char) {
    ('\n' <= c <= '\r') || ('\U{1c}' <= c <= '\U{1e}') || c == '\U{85}' || c == '\U{2028}' || c == '\U{2029}'
  }

  /** Number of leading whitespace characters of `s`. */
  function LeadingSpaces(s: string): (k: nat)
    ensures k <= |s|
    ensures forall i | 0 <= i < k :: IsSpace(s[i])
    ensures k < |s| ==> !IsSpace(s[k])
  {
    if s != [] && IsSpace(s[0]) then 1 + LeadingSpaces(s[1..]) else 0
  }

  /** Number of trailing whitespace characters of `s`. */
  function TrailingSpaces(s: string): (k: nat)
    ensures k <= |s|
    ensures forall i | |s| - k <= i < |s| :: IsSpace(s[i])
    ensures k < |s| ==> !IsSpace(s[|s| - 1 - k])
  {
    if s != [] && IsSpace(s[|s| - 1]) then 1 + TrailingSpaces(s[..|s| - 1]) else 0
  }

  /** `s.strip()`. */
  function Strip(s: string): string
  {
    var t := s[LeadingSpaces(s)..];
    t[..|t| - TrailingSpaces(t)]
  }

  /** What `strip` leaves: a piece of `s` that neither starts nor ends with
      whitespace, obtained by cutting only whitespace from both ends. */
  lemma {:induction false} StripTrimsOnlySpace(s: string)
    ensures var r := Strip(s);
      var a := LeadingSpaces(s);
      a + |r| <= |s| && s[a..a + |r|] == r
      && (forall i | 0 <= i < a :: IsSpace(s[i]))
      && (forall i | a + |r| <= i < |s| :: IsSpace(s[i]))
      && (r != [] ==> !IsSpace(r[0]) && !IsSpace(r[|r| - 1]))
  {
    var a := LeadingSpaces(s);
    var t := s[a..];
    var b := TrailingSpaces(t);
    assert forall i | a + |t| - b <= i < |s| :: s[i] == t[i - a];
  }

  function LowerChar(c: char): char {
    if 'A' <= c <= 'Z' then (c as int - 'A' as int + 'a' as int) as char else c
  }

  predicate IsUpper(c: char) {
    'A' <= c <= 'Z'
  }

  /** `s.lower()` on ASCII letters: every capital becomes its small letter,
      every other character is kept, so no capital remains. */
  function ToLower(s: string): (r: string)
    ensures |r| == |s|
  {
    seq(|s|, i requires 0 <= i < |s| => LowerChar(s[i]))
  }

  /** Lower-casing leaves no ASCII capital, moves each capital to the
      matching small letter and keeps every other character. (Kept apart
      from ToLower's contract so that callers which only need the length
      do not carry these quantifiers.) */
  lemma ToLowerChars(s: string)
    ensures forall i | 0 <= i < |s| :: !IsUpper(ToLower(s)[i])
    ensures forall i | 0 <= i < |s| && !IsUpper(s[i]) :: ToLower(s)[i] == s[i]
    ensures forall i | 0 <= i < |s| && IsUpper(s[i]) ::
      'a' <= ToLower(s)[i] <= 'z' && ToLower(s)[i] as int - 'a' as int == s[i] as int - 'A' as int
  {
  }

  predicate StartsWith(s: string, prefix: string) {
    |prefix| <= |s| && s[..|prefix|] == prefix
  }

  /** `pattern` occurs in `s` at index `i`. */
  predicate OccursAt(s: string, pattern: string, i: int) {
    0 <= i && i + |pattern| <= |s| && s[i..i + |pattern|] == pattern
  }

  /** The leftmost occurrence of `pattern` in `s` at or after `from`. */
  function FindFrom(s: string, pattern: string, from: nat): (r: Option<nat>)
    decreases |s| - from
    ensures r.Some? ==> from <= r.value && OccursAt(s, pattern, r.value)
    ensures forall i | from <= i && (r.None? || i < r.value) :: !OccursAt(s, pattern, i)
  {
    if from + |pattern| > |s| then None
    else if s[from..from + |pattern|] == pattern then Some(from)
    else FindFrom(s, pattern, from + 1)
  }

  /** The end of the run of digits that starts at `i`: the first index at or
      after `i` that does not hold a digit. */
  function RunEnd(s: string, i: nat): (e: nat)
    requires i <= |s|
    decreases |s| - i
    ensures i <= e <= |s|
    ensures forall k | i <= k < e :: IsDigit(s[k])
    ensures e < |s| ==> !IsDigit(s[e])
  {
    if i < |s| && IsDigit(s[i]) then RunEnd(s, i + 1) else i
  }

  /** Length of the line break starting at `i` (0 when there is none). */
  function BreakLength(s: string, i: nat): nat
    requires i < |s|
  {
    if !IsLineBreak(s[i]) then 0
    else if s[i] == '\r' && i + 1 < |s| && s[i + 1] == '\n' then 2
    else 1
  }

  /** The first index at or after `i` that holds a line break, or `|s|`. */
  function NextBreak(s: string, i: nat): (k: nat)
    requires i <= |s|
    decreases |s| - i
    ensures i <= k <= |s|
    ensures forall j | i <= j < k :: !IsLineBreak(s[j])
    ensures k < |s| ==> IsLineBreak(s[k])
  {
    if i == |s| || IsLineBreak(s[i]) then i else NextBreak(s, i + 1)
  }

  /** `s.splitlines()`: a final line break does not start an empty line. */
  function SplitLines(s: string): (lines: seq<string>)
    decreases |s|
    ensures forall l | l in lines :: forall c | c in l :: !IsLineBreak(c)
  {
    if s == [] then []
    else
      var k := NextBreak(s, 0);
      if k == |s| then [s]
      else [s[..k]] + SplitLines(s[k + BreakLength(s, k)..])
  }

  // ------------------------------------------------------------------
  // Line splitting

  /** A piece without line breaks that ends the text is its last line. */
  lemma {:induction false} SplitLinesSingle(a: string)
    requires a != [] && forall i | 0 <= i < |a| :: !IsLineBreak(a[i])
    ensures SplitLines(a) == [a]
  {
  }

  /** A piece without line breaks followed by `\n` or `\r\n` is a line of
      its own, and the rest of the text is split after it. */
  lemma {:induction false} SplitLinesCons(a: string, brk: string, c: string)
    requires forall i | 0 <= i < |a| :: !IsLineBreak(a[i])
    requires brk == "\n" || brk == "\r\n"
    ensures SplitLines(a + brk + c) == [a] + SplitLines(c)
  {
    var s := a + brk + c;
    assert forall j | 0 <= j < |a| :: s[j] == a[j];
    assert s[|a|] == brk[0];
    assert NextBreak(s, 0) == |a|;
    assert BreakLength(s, |a|) == |brk|;
    assert s[..|a|] == a;
    assert s[|a| + |brk|..] == c;
  }

  // ------------------------------------------------------------------
  // Case-insensitivity

  /** Characters with the same small form are both whitespace or neither,
      and both line breaks or neither: only letters differ in case. */
  lemma {:induction false} LowerCharSameKind(c: char, d: char)
    requires LowerChar(c) == LowerChar(d)
    ensures IsSpace(c) <==> IsSpace(d)
    ensures IsLineBreak(c) <==> IsLineBreak(d)
    ensures c == '\r' <==> d == '\r'
    ensures c == '\n' <==> d == '\n'
  {
  }

  /** Lower-casing commutes with slicing. */
  lemma {:induction false} ToLowerSlice(s: string, i: nat, j: nat)
    requires i <= j <= |s|
    ensures ToLower(s[i..j]) == ToLower(s)[i..j]
  {
  }

  /** `strip` cuts `LeadingSpaces` from the front, then the trailing
      whitespace of what is left from the back. */
  lemma {:induction false} StripAsSlice(s: string)
    ensures var x := LeadingSpaces(s);
      x + TrailingSpaces(s[x..]) <= |s| && Strip(s) == s[x..|s| - TrailingSpaces(s[x..])]
  {
  }

  /** Lower-casing keeps whitespace where it is. */
  lemma {:induction false} SpacesOfLower(s: string)
    ensures LeadingSpaces(ToLower(s)) == LeadingSpaces(s)
    ensures TrailingSpaces(ToLower(s)) == TrailingSpaces(s)
  {
    var t := ToLower(s);
    forall i | 0 <= i < |s|
      ensures IsSpace(t[i]) <==> IsSpace(s[i])
    {
      LowerCharSameKind(s[i], t[i]);
    }
  }

  /** Lower-casing leaves to `strip` the same whitespace to cut at either
      end. */
  lemma {:induction false} StripCutsOfLower(s: string)
    ensures var x := LeadingSpaces(s);
      && LeadingSpaces(ToLower(s)) == x
      && ToLower(s)[x..] == ToLower(s[x..])
      && TrailingSpaces(ToLower(s)[x..]) == TrailingSpaces(s[x..])
  {
    var x := LeadingSpaces(s);
    assert LeadingSpaces(ToLower(s)) == x by { SpacesOfLower(s); }
    assert ToLower(s)[x..] == ToLower(s[x..]) by { ToLowerSlice(s, x, |s|); }
    assert TrailingSpaces(ToLower(s[x..])) == TrailingSpaces(s[x..]) by { SpacesOfLower(s[x..]); }
  }

  /** Stripping the lower-cased text cuts where stripping the text does. */
  lemma {:induction false} StripOfLower(s: string)
    ensures var x := LeadingSpaces(s);
      var y := TrailingSpaces(s[x..]);
      x + y <= |s| && Strip(ToLower(s)) == ToLower(s)[x..|s| - y]
  {
    StripCutsOfLower(s);
    StripAsSlice(ToLower(s));
  }

  /** Stripping then lower-casing gives the same slice of the lower-cased
      text. */
  lemma {:induction false} LowerOfStrip(s: string)
    ensures var x := LeadingSpaces(s);
      var y := TrailingSpaces(s[x..]);
      x + y <= |s| && ToLower(Strip(s)) == ToLower(s)[x..|s| - y]
  {
    var x := LeadingSpaces(s);
    var y := TrailingSpaces(s[x..]);
    StripAsSlice(s);
    ToLowerSlice(s, x, |s| - y);
    LowerOfEqual(Strip(s), s[x..|s| - y], ToLower(s)[x..|s| - y], ToLower(s)[x..|s| - y]);
  }

  lemma {:induction false} LowerOfEqual(p: string, u: string, q: string, v: string)
    requires p == u && q == v && ToLower(u) == v
    ensures ToLower(p) == q
  {
  }

  /** Lower-casing then stripping is stripping then lower-casing. */
  lemma {:induction false} StripLower(s: string)
    ensures ToLower(Strip(s)) == Strip(ToLower(s))
  {
    LowerOfStrip(s);
    StripOfLower(s);
  }

  /** `strip` does not depend on case: texts equal up to case strip to
      texts equal up to case. */
  lemma {:induction false} StripIgnoresCase(a: string, b: string)
    requires ToLower(a) == ToLower(b)
    ensures ToLower(Strip(a)) == ToLower(Strip(b))
  {
    StripLower(a);
    StripLower(b);
  }

  /** Lower-casing keeps line breaks, and `\r\n` pairs, where they are. */
  lemma {:induction false} BreaksOfLower(s: string, i: nat)
    requires i <= |s|
    ensures NextBreak(ToLower(s), i) == NextBreak(s, i)
    ensures NextBreak(s, i) < |s| ==> BreakLength(ToLower(s), NextBreak(s, i)) == BreakLength(s, NextBreak(s, i))
  {
    var t := ToLower(s);
    forall j | 0 <= j < |s|
      ensures IsLineBreak(t[j]) <==> IsLineBreak(s[j])
      ensures t[j] == '\r' <==> s[j] == '\r'
      ensures t[j] == '\n' <==> s[j] == '\n'
    {
      LowerCharSameKind(s[j], t[j]);
    }
    assert NextBreak(t, i) == NextBreak(s, i);
  }

  /** A text with a line break splits into the text before its first
      break and the lines of what follows that break. */
  lemma {:induction false} SplitLinesAtBreak(s: string)
    requires NextBreak(s, 0) < |s|
    ensures var k := NextBreak(s, 0);
      SplitLines(s) == [s[..k]] + SplitLines(s[k + BreakLength(s, k)..])
  {
  }

  /** Lower-casing a first line and the lines after it. */
  lemma {:induction false} LowerLinesCons(ls: seq<string>, a: string, la: seq<string>,
                                          lt: seq<string>, b: string, lb: seq<string>)
    requires ls == [a] + la && lt == [b] + lb
    requires b == ToLower(a) && |lb| == |la|
    requires forall k | 0 <= k < |la| :: lb[k] == ToLower(la[k])
    ensures |lt| == |ls|
    ensures forall k | 0 <= k < |ls| :: lt[k] == ToLower(ls[k])
  {
    forall k | 0 <= k < |ls|
      ensures lt[k] == ToLower(ls[k])
    {
      if k > 0 {
        assert lt[k] == lb[k - 1] && ls[k] == la[k - 1];
      }
    }
  }

  /** Lower-casing keeps line breaks where they are: the lines of the
      lower-cased text are the lower-cased lines. */
  lemma {:induction false} SplitLinesLower(s: string)
    ensures |SplitLines(ToLower(s))| == |SplitLines(s)|
    ensures forall k | 0 <= k < |SplitLines(s)| :: SplitLines(ToLower(s))[k] == ToLower(SplitLines(s)[k])
    decreases |s|
  {
    var t := ToLower(s);
    if s == [] {
      assert t == [];
    } else {
      assert |t| == |s|;
      var k := NextBreak(s, 0);
      assert NextBreak(t, 0) == k && (k < |s| ==> BreakLength(t, k) == BreakLength(s, k)) by {
        BreaksOfLower(s, 0);
      }
      assert t[..k] == ToLower(s[..k]) by { ToLowerSlice(s, 0, k); }
      if k == |s| {
        SplitLinesSingle(s);
        SplitLinesSingle(t);
        LowerLinesCons(SplitLines(s), s, [], SplitLines(t), t, []);
      } else {
        var n := BreakLength(s, k);
        assert t[k + n..] == ToLower(s[k + n..]) by { ToLowerSlice(s, k + n, |s|); }
        SplitLinesLower(s[k + n..]);
        SplitLinesAtBreak(s);
        SplitLinesAtBreak(t);
        LowerLinesCons(SplitLines(s), s[..k], SplitLines(s[k + n..]), SplitLines(t), t[..k], SplitLines(t[k + n..]));
      }
    }
  }

  /** `splitlines` does not depend on case: texts equal up to case split
      into as many lines, pairwise equal up to case. */
  lemma {:induction false} SplitLinesIgnoreCase(a: string, b: string)
    requires ToLower(a) == ToLower(b)
    ensures |SplitLines(a)| == |SplitLines(b)|
    ensures forall k | 0 <= k < |SplitLines(a)| :: ToLower(SplitLines(a)[k]) == ToLower(SplitLines(b)[k])
  {
    SplitLinesLower(a);
    SplitLinesLower(b);
  }
}
