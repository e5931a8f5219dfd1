// The recurring job's schedule: a six-field cron pattern (seconds, minutes,
// hours, day of month, month, day of week) whose seconds field is the step
// `*/<interval>` and whose other fields are all `*`.
module Cron {
  import opened Wrappers

  predicate IsDigit(c: char) {
    '0' <= c <= '9'
  }

  predicate AllDigits(s: string) {
    forall i :: 0 <= i < |s| ==> IsDigit(s[i])
  }

  function DigitChar(d: int): (c: char)
    requires 0 <= d < 10
    ensures IsDigit(c)
  {
    ('0' as int + d) as char
  }

  function DigitValue(c: char): (d: nat)
    requires IsDigit(c)
    ensures d < 10 && DigitChar(d) == c
  {
    c as int - '0' as int
  }

  /** How a template literal renders a non-negative integer: its decimal digits. */
  function Decimal(n: nat): (s: string)
    ensures |s| > 0 && AllDigits(s)
  {
    if n < 10 then [DigitChar(n)] else Decimal(n / 10) + [DigitChar(n % 10)]
  }

  /** Reads decimal digits back as a number. */
  function ParseDecimal(s: string): nat
    requires AllDigits(s)
  {
    if s == [] then 0 else 10 * ParseDecimal(s[..|s| - 1]) + DigitValue(s[|s| - 1])
  }

  lemma {:induction false} ParseDecimalOfDecimal(n: nat)
    ensures ParseDecimal(Decimal(n)) == n
  {
    var s := Decimal(n);
    if n >= 10 {
      assert s[..|s| - 1] == Decimal(n / 10);
      ParseDecimalOfDecimal(n / 10);
    }
  }

  /** The pattern the refresh job is registered with, for a rendered interval. */
  function Pattern(step: string): string {
    "*/" + step + " * * * * *"
  }

  /** The space-separated fields of a pattern, empty fields included. */
  function Fields(s: string): (r: seq<string>)
    ensures |r| > 0
  {
    if s == [] then [""]
    else
      var rest := Fields(s[1..]);
      if s[0] == ' ' then [""] + rest else [[s[0]] + rest[0]] + rest[1..]
  }

  lemma {:induction false} FieldsOfSpaceFree(t: string)
    requires ' ' !in t
    ensures Fields(t) == [t]
  {
    if t != [] {
      FieldsOfSpaceFree(t[1..]);
      assert [t[0]] + t[1..] == t;
    }
  }

  lemma {:induction false} FieldsSplit(t: string, u: string)
    requires ' ' !in t
    ensures Fields(t + " " + u) == [t] + Fields(u)
  {
    var s := t + " " + u;
    if t == [] {
      assert s[1..] == u;
    } else {
      assert s[1..] == t[1..] + " " + u;
      FieldsSplit(t[1..], u);
      assert [t[0]] + t[1..] == t;
    }
  }

  /**
   * The step a six-field pattern sets on its seconds field when every other
   * field is `*`, or None for any other pattern.
   */
  function SecondsStep(pattern: string): Option<nat> {
    var f := Fields(pattern);
    if |f| == 6 && (forall k :: 1 <= k < 6 ==> f[k] == "*")
      && |f[0]| > 2 && f[0][..2] == "*/" && AllDigits(f[0][2..])
    then Some(ParseDecimal(f[0][2..]))
    else None
  }

  /** The five fields after the seconds field are each `*`. */
  lemma FieldsOfStars()
    ensures Fields("* * * * *") == ["*", "*", "*", "*", "*"]
  {
    FieldsOfSpaceFree("*");
    assert "* *" == "*" + " " + "*";
    FieldsSplit("*", "*");
    assert "* * *" == "*" + " " + "* *";
    FieldsSplit("*", "* *");
    assert "* * * *" == "*" + " " + "* * *";
    FieldsSplit("*", "* * *");
    assert "* * * * *" == "*" + " " + "* * * *";
    FieldsSplit("*", "* * * *");
  }

  /** The pattern for a space-free step has six fields, all `*` but the first. */
  lemma PatternFields(step: string)
    requires ' ' !in step
    ensures Fields(Pattern(step)) == ["*/" + step, "*", "*", "*", "*", "*"]
  {
    var first := "*/" + step;
    assert ' ' !in first by {
      assert forall i :: 0 <= i < |first| ==> first[i] != ' ';
    }
    assert Pattern(step) == first + " " + "* * * * *";
    FieldsSplit(first, "* * * * *");
    FieldsOfStars();
  }

  /**
   * The pattern built for interval `n` has six fields, only the seconds field
   * is constrained, and it reads back as a step of `n`.
   */
  lemma PatternOfInterval(n: nat)
    ensures Fields(Pattern(Decimal(n))) == ["*/" + Decimal(n), "*", "*", "*", "*", "*"]
    ensures SecondsStep(Pattern(Decimal(n))) == Some(n)
  {
    var step := Decimal(n);
    assert ' ' !in step;
    PatternFields(step);
    var first := "*/" + step;
    assert first[..2] == "*/" && first[2..] == step;
    ParseDecimalOfDecimal(n);
  }
}
