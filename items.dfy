/** The two record types the synchronisation moves between trackers
    (`SpaceItem` and `OpenProjectItem`), and how a Space issue is named in
    OpenProject.  Both are plain records compared field by field, as
    pydantic models are. */
module Items {
  import opened Base
  import opened Text
  import opened Dates

  /** A point in time as the Space API reports it; the model keeps it as
      the ISO text it arrived as (`datetime.fromisoformat` is not part of
      this model). */
  datatype Timestamp = Timestamp(iso: string)

  /** An issue read from Space, with what its description says about
      scheduling. */
  datatype SpaceItem = SpaceItem(
    id: int,
    title: string,
    description: string,
    earliestStart: ValidDate,
    dueDate: Option<Timestamp>,
    tags: seq<string>,
    dependentOn: seq<nat>,
    duration: nat)

  /** A work package as OpenProject stores it.  Dependencies are kept as
      separate relations, so a package created by the synchronisation has
      none of its own. */
  datatype OpenProjectItem = OpenProjectItem(
    id: int,
    subject: string,
    startDate: Option<ValidDate>,
    dueDate: Option<ValidDate>,
    dependentOn: seq<int>)

  /** The work-package subject of a Space issue: its number in brackets,
      a space, then its title. */
  function Subject(id: int, title: string): string
  {
    "[" + IntToString(id) + "] " + title
  }

  /** `str` of an integer starts with a minus sign exactly when it is
      negative, followed by the decimal digits of its magnitude. */
  lemma {:induction false} IntToStringShape(i: int)
    ensures |IntToString(i)| > 0
    ensures IntToString(i)[0] == '-' <==> i < 0
    ensures forall k | (if i < 0 then 1 else 0) <= k < |IntToString(i)| :: IsDigit(IntToString(i)[k])
    ensures i < 0 ==> IntToString(i)[1..] == DecimalString(-i)
    ensures i >= 0 ==> IntToString(i) == DecimalString(i)
  {
    var n: nat := if i < 0 then -i else i;
    DecimalStringRoundTrip(n);
    var d := DecimalString(n);
    var s := IntToString(i);
    var off := if i < 0 then 1 else 0;
    assert s[off..] == d;
    forall k | off <= k < |s|
      ensures IsDigit(s[k])
    {
      assert s[k] == d[k - off];
    }
  }

  /** `str` is one-to-one on integers. */
  lemma {:induction false} IntToStringInjective(a: int, b: int)
    requires IntToString(a) == IntToString(b)
    ensures a == b
  {
    IntToStringShape(a);
    IntToStringShape(b);
    var na: nat := if a < 0 then -a else a;
    var nb: nat := if b < 0 then -b else b;
    DecimalStringRoundTrip(na);
    DecimalStringRoundTrip(nb);
    assert DecimalString(na) == DecimalString(nb);
  }

  /** A subject is the issue number in brackets, a space and the title:
      its first closing bracket follows the number, and the title is all
      that comes after the space. */
  lemma {:induction false} SubjectShape(id: int, title: string)
    ensures var s, n := Subject(id, title), |IntToString(id)|;
            && |s| == n + |title| + 3
            && s[0] == '[' && s[n + 1] == ']' && s[n + 2] == ' '
            && (forall k | 1 <= k <= n :: s[k] != ']')
            && s[n + 3..] == title
  {
    IntToStringShape(id);
    var s, x := Subject(id, title), IntToString(id);
    forall k | 1 <= k <= |x|
      ensures s[k] != ']'
    {
      assert s[k] == x[k - 1];
    }
  }

  /** The subject names the issue unambiguously: different issue numbers
      or titles never share a subject, so the number and title can be read
      back from it. */
  lemma {:induction false} SubjectInjective(a: int, t: string, b: int, u: string)
    requires Subject(a, t) == Subject(b, u)
    ensures a == b && t == u
  {
    var s := Subject(a, t);
    var x, y := IntToString(a), IntToString(b);
    SubjectShape(a, t);
    SubjectShape(b, u);
    assert |x| == |y|;
    assert x == s[1..|x| + 1] == y;
    IntToStringInjective(a, b);
  }
}
