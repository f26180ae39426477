/** Duration ranges as typed into the form, `"<minWeeks>-<maxWeeks>"`: the
    planner splits the text on `'-'`, converts each of the two pieces with
    `int`, and later prints them back as the record's label. */
module Durations {
  import opened Results

  /** A stage's duration range in whole weeks. */
  datatype Duration = Duration(minWeeks: nat, maxWeeks: nat)

  const Separator: char := '-'

  /** `sep.join(parts)`. */
  function Join(parts: seq<string>, sep: char): string
    decreases |parts|
  {
    if |parts| == 0 then ""
    else if |parts| == 1 then parts[0]
    else parts[0] + [sep] + Join(parts[1..], sep)
  }

  /** Joining after extending the first piece by one character extends the
      joined text by that character. */
  lemma JoinExtendFirst(c: char, parts: seq<string>, sep: char)
    requires |parts| >= 1
    ensures Join([[c] + parts[0]] + parts[1..], sep) == [c] + Join(parts, sep)
  {
    var q := [[c] + parts[0]] + parts[1..];
    assert q[1..] == parts[1..];
  }

  /** `s.split(sep)`: the pieces of `s` between occurrences of `sep`, empty
      pieces included. */
  function Split(s: string, sep: char): (parts: seq<string>)
    ensures |parts| >= 1
    ensures forall i :: 0 <= i < |parts| ==> sep !in parts[i]
    ensures Join(parts, sep) == s
    decreases |s|
  {
    if |s| == 0 then [""]
    else
      var rest := Split(s[1..], sep);
      if s[0] == sep then
        assert ([""] + rest)[1..] == rest;
        [""] + rest
      else
        JoinExtendFirst(s[0], rest, sep);
        [[s[0]] + rest[0]] + rest[1..]
  }

  /** A piece free of the separator is not split at all. */
  lemma {:induction false} SplitWhole(a: string, sep: char)
    requires sep !in a
    ensures Split(a, sep) == [a]
    decreases |a|
  {
    if |a| > 0 {
      SplitWhole(a[1..], sep);
      assert [a[0]] + a[1..] == a;
    }
  }

  /** A piece free of the separator is split off whole from the front. */
  lemma {:induction false} SplitPiece(a: string, r: string, sep: char)
    requires sep !in a
    ensures Split(a + [sep] + r, sep) == [a] + Split(r, sep)
    decreases |a|
  {
    var s := a + [sep] + r;
    if |a| > 0 {
      assert s[0] == a[0] && s[0] != sep;
      assert s[1..] == a[1..] + [sep] + r;
      SplitPiece(a[1..], r, sep);
      var rest := Split(s[1..], sep);
      assert rest == [a[1..]] + Split(r, sep);
      assert rest[0] == a[1..] && rest[1..] == Split(r, sep);
      assert [a[0]] + a[1..] == a;
    } else {
      assert s[0] == sep;
      assert s[1..] == r;
    }
  }

  /** Splitting undoes joining pieces that are free of the separator. */
  lemma {:induction false} SplitJoin(parts: seq<string>, sep: char)
    requires |parts| >= 1
    requires forall i :: 0 <= i < |parts| ==> sep !in parts[i]
    ensures Split(Join(parts, sep), sep) == parts
    decreases |parts|
  {
    if |parts| == 1 {
      SplitWhole(parts[0], sep);
    } else {
      SplitJoin(parts[1..], sep);
      SplitPiece(parts[0], Join(parts[1..], sep), sep);
      assert [parts[0]] + parts[1..] == parts;
    }
  }

  predicate IsDigit(c: char) {
    '0' <= c <= '9'
  }

  /** A non-empty run of decimal digits. */
  predicate IsDigits(s: string) {
    |s| > 0 && forall i :: 0 <= i < |s| ==> IsDigit(s[i])
  }

  /** Digits without a superfluous leading zero, as `str` prints a number. */
  predicate IsCanonical(s: string) {
    IsDigits(s) && (|s| > 1 ==> s[0] != '0')
  }

  function DigitValue(c: char): nat
    requires IsDigit(c)
  {
    (c as int) - ('0' as int)
  }

  function DigitChar(d: nat): (c: char)
    requires d < 10
    ensures IsDigit(c) && DigitValue(c) == d
  {
    (('0' as int) + d) as char
  }

  /** The number a run of decimal digits denotes. */
  function DigitsValue(s: string): nat
    requires forall i :: 0 <= i < |s| ==> IsDigit(s[i])
    decreases |s|
  {
    if |s| == 0 then 0 else DigitsValue(s[..|s| - 1]) * 10 + DigitValue(s[|s| - 1])
  }

  /** `int(s)` on plain decimal digits; `None` where `int` raises. On digits
      without a superfluous leading zero it is the inverse of `str`. */
  function ParseNat(s: string): (r: Option<nat>)
    ensures r.Some? <==> IsDigits(s)
    ensures IsCanonical(s) ==> r.Some? && NatToString(r.value) == s
  {
    if IsDigits(s) then
      if IsCanonical(s) then CanonicalRoundTrip(s); Some(DigitsValue(s))
      else Some(DigitsValue(s))
    else None
  }

  /** `str(n)`: the shortest decimal digits denoting `n`. */
  function NatToString(n: nat): (s: string)
    ensures IsCanonical(s)
    ensures DigitsValue(s) == n
    decreases n
  {
    if n < 10 then [DigitChar(n)]
    else
      var s := NatToString(n / 10) + [DigitChar(n % 10)];
      assert s[..|s| - 1] == NatToString(n / 10);
      s
  }

  /** A leading digit bounds the value from below. */
  lemma {:induction false} LeadingDigitBound(s: string)
    requires IsDigits(s)
    ensures DigitsValue(s) >= DigitValue(s[0])
    decreases |s|
  {
    if |s| > 1 {
      LeadingDigitBound(s[..|s| - 1]);
    }
  }

  /** Printing the value of canonical digits gives the digits back. */
  lemma {:induction false} CanonicalRoundTrip(s: string)
    requires IsCanonical(s)
    ensures NatToString(DigitsValue(s)) == s
    decreases |s|
  {
    if |s| > 1 {
      var front := s[..|s| - 1];
      assert front[0] == s[0];
      LeadingDigitBound(front);
      CanonicalRoundTrip(front);
      var n := DigitsValue(s);
      assert n / 10 == DigitsValue(front) && n % 10 == DigitValue(s[|s| - 1]);
      assert s == front + [s[|s| - 1]];
    }
  }

  /** `s` is two runs of digits around a separator at position `i`. */
  predicate SplitsAt(s: string, i: int) {
    && 0 <= i < |s|
    && s[i] == Separator
    && IsDigits(s[..i])
    && IsDigits(s[i + 1..])
  }

  /** The text a duration parse accepts. */
  predicate WellFormedDuration(s: string) {
    exists i :: 0 <= i < |s| && SplitsAt(s, i)
  }

  /** Splitting text on the separator gives two runs of digits exactly when
      the text is two runs of digits around a separator, and then the pieces
      are the text before and after it. */
  lemma SplitIntoDigitRuns(s: string)
    ensures var parts := Split(s, Separator);
      |parts| == 2 && IsDigits(parts[0]) && IsDigits(parts[1]) ==>
        SplitsAt(s, |parts[0]|) && parts == [s[..|parts[0]|], s[|parts[0]| + 1..]]
    ensures forall i :: SplitsAt(s, i) ==> Split(s, Separator) == [s[..i], s[i + 1..]]
  {
    var parts := Split(s, Separator);
    if |parts| == 2 && IsDigits(parts[0]) && IsDigits(parts[1]) {
      var i := |parts[0]|;
      assert Join(parts[1..], Separator) == parts[1];
      assert s == parts[0] + [Separator] + parts[1];
      assert s[..i] == parts[0] && s[i + 1..] == parts[1];
    }
    forall i | SplitsAt(s, i)
      ensures Split(s, Separator) == [s[..i], s[i + 1..]]
    {
      var a, b := s[..i], s[i + 1..];
      assert Separator !in a && Separator !in b by {
        forall j | 0 <= j < |a| ensures a[j] != Separator { assert IsDigit(a[j]); }
        forall j | 0 <= j < |b| ensures b[j] != Separator { assert IsDigit(b[j]); }
      }
      assert s == Join([a, b], Separator);
      SplitJoin([a, b], Separator);
    }
  }

  /** `start_weeks, end_weeks = map(int, s.split('-'))`: exactly two pieces,
      each a run of digits; anything else is `None` (Python raises
      `ValueError`). So a duration parses exactly when it is two runs of
      digits around a single `'-'`, and then the bounds are the values of
      those runs. */
  function ParseDuration(s: string): (r: Option<Duration>)
    ensures r.Some? <==> WellFormedDuration(s)
    ensures forall i :: SplitsAt(s, i) ==> r == Some(Duration(DigitsValue(s[..i]), DigitsValue(s[i + 1..])))
  {
    var parts := Split(s, Separator);
    SplitIntoDigitRuns(s);
    if |parts| != 2 then None
    else match (ParseNat(parts[0]), ParseNat(parts[1]))
      case (Some(lo), Some(hi)) => Some(Duration(lo, hi))
      case _ => None
  }

  /** The record label `f"{start_weeks}-{end_weeks}"`: the shortest digits of
      the minimum, the separator, then the shortest digits of the maximum. */
  function FormatDuration(d: Duration): string {
    NatToString(d.minWeeks) + [Separator] + NatToString(d.maxWeeks)
  }

  /** Parsing the label of a duration gives the duration back. */
  lemma FormatParseRoundTrip(d: Duration)
    ensures ParseDuration(FormatDuration(d)) == Some(d)
  {
    var a, b := NatToString(d.minWeeks), NatToString(d.maxWeeks);
    var s := FormatDuration(d);
    assert s[..|a|] == a && s[|a| + 1..] == b;
    assert SplitsAt(s, |a|);
  }

  /** Digits around a separator leave no other separator in the text. */
  lemma SeparatorUnique(s: string, i: int)
    requires SplitsAt(s, i)
    ensures forall j :: 0 <= j < |s| && j != i ==> s[j] != Separator
  {
    forall j | 0 <= j < |s| && j != i
      ensures s[j] != Separator
    {
      if j < i {
        assert s[j] == s[..i][j] && IsDigit(s[..i][j]);
      } else {
        assert s[j] == s[i + 1..][j - i - 1] && IsDigit(s[i + 1..][j - i - 1]);
      }
    }
  }

  /** The label repeats the typed text exactly when both bounds were typed
      without superfluous leading zeros (`"02-4"` is labelled `"2-4"`). */
  lemma LabelEchoesCanonicalInput(s: string, i: int)
    requires SplitsAt(s, i)
    ensures ParseDuration(s).Some?
    ensures FormatDuration(ParseDuration(s).value) == s <==> IsCanonical(s[..i]) && IsCanonical(s[i + 1..])
  {
    var a, b := s[..i], s[i + 1..];
    var d := ParseDuration(s).value;
    assert d == Duration(DigitsValue(a), DigitsValue(b));
    assert s == a + [Separator] + b;
    if IsCanonical(a) && IsCanonical(b) {
      CanonicalRoundTrip(a);
      CanonicalRoundTrip(b);
    }
    var x := NatToString(d.minWeeks);
    if FormatDuration(d) == s {
      assert s[|x|] == Separator;
      SeparatorUnique(s, i);
      assert |x| == i;
      assert x == s[..i];
      assert NatToString(d.maxWeeks) == s[i + 1..];
    }
  }

  /** Text holding two separators does not parse. */
  lemma TwoSeparatorsRejected(s: string, j: int, k: int)
    requires 0 <= j < k < |s| && s[j] == Separator && s[k] == Separator
    ensures ParseDuration(s) == None
  {
    forall i | 0 <= i < |s|
      ensures !SplitsAt(s, i)
    {
      if SplitsAt(s, i) {
        SeparatorUnique(s, i);
      }
    }
  }

  /** A bound written with a sign cannot be entered: a leading or doubled
      `'-'` leaves an empty piece, so the parsed weeks are never negative. */
  lemma SignedBoundRejected(a: string, b: string)
    ensures ParseDuration([Separator] + a + [Separator] + b) == None
    ensures ParseDuration(a + [Separator, Separator] + b) == None
  {
    var s1 := [Separator] + a + [Separator] + b;
    var s2 := a + [Separator, Separator] + b;
    TwoSeparatorsRejected(s1, 0, |a| + 1);
    TwoSeparatorsRejected(s2, |a|, |a| + 1);
  }
}
