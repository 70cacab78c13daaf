/**
 * Text as src/services/Com prints and its consumers read it: decimal numbers, separated fields, and the
 * ordering strcmp gives. Strings do not contain the terminating NUL.
 */
module ComText {
  import opened Base

  function DigitChar(d: nat): char
    requires d < 10
  {
    ('0' as int + d) as char
  }

  predicate IsDigit(c: char) {
    '0' <= c <= '9'
  }

  function DigitValue(c: char): (d: nat)
    requires IsDigit(c)
    ensures d < 10 && DigitChar(d) == c
  {
    c as int - '0' as int
  }

  predicate AllDigits(s: string) {
    forall i :: 0 <= i < |s| ==> IsDigit(s[i])
  }

  // ---------------------------------------------------------------------------------------------
  // Decimal numbers
  // ---------------------------------------------------------------------------------------------

  /** The value a string of digits denotes. */
  function Number(s: string): nat
    requires AllDigits(s)
  {
    if s == "" then 0 else 10 * Number(s[..|s| - 1]) + DigitValue(s[|s| - 1])
  }

  /** The digits of v, none for zero. */
  function Digits(v: nat): (s: string)
    ensures AllDigits(s)
  {
    if v == 0 then "" else Digits(v / 10) + [DigitChar(v % 10)]
  }

  function Decimal(v: nat): (s: string)
    ensures AllDigits(s) && s != ""
  {
    if v == 0 then "0" else Digits(v)
  }

  function Signed(v: int): (s: string)
    ensures s != ""
  {
    if v < 0 then "-" + Decimal(-v) else Decimal(v)
  }

  /** Reading a signed decimal back. */
  function SignedValue(s: string): Option<int> {
    if s != "" && AllDigits(s) then Some(Number(s))
    else if |s| > 1 && s[0] == '-' && AllDigits(s[1..]) then Some(0 - Number(s[1..]) as int)
    else None
  }

  lemma {:induction false} DigitsValue(v: nat)
    ensures Number(Digits(v)) == v
  {
    if v > 0 {
      DigitsValue(v / 10);
      assert Digits(v)[..|Digits(v)| - 1] == Digits(v / 10);
    }
  }

  lemma DecimalValue(v: nat)
    ensures Number(Decimal(v)) == v
  {
    DigitsValue(v);
    if v == 0 {
      assert "0"[..0] == "";
    }
  }

  /** Printing and reading a signed number is the identity, the most negative value included. */
  lemma SignedRoundTrip(v: int)
    ensures SignedValue(Signed(v)) == Some(v)
  {
    hide Decimal, Number;
    if v < 0 {
      DecimalValue(-v);
      assert Signed(v) == "-" + Decimal(-v);
      assert Signed(v)[1..] == Decimal(-v);
      assert !IsDigit(Signed(v)[0]);
    } else {
      DecimalValue(v);
    }
  }

  lemma {:induction false} DigitsLead(v: nat)
    requires v > 0
    ensures Digits(v) != "" && Digits(v)[0] != '0' && AllDigits(Digits(v))
  {
    if v >= 10 { DigitsLead(v / 10); }
  }

  /** A number is printed in one way only: a minus sign exactly for a negative one, and no zero in front. */
  lemma SignedIsCanonical(v: int)
    ensures Signed(v)[0] == '-' <==> v < 0
    ensures v == 0 ==> Signed(v) == "0"
    ensures v != 0 ==> Signed(v)[if v < 0 then 1 else 0] != '0'
  {
    if v != 0 { DigitsLead(if v < 0 then -v else v); }
  }

  function Pow10(n: nat): (p: nat)
    ensures p >= 1
  {
    if n == 0 then 1 else 10 * Pow10(n - 1)
  }

  lemma {:induction false} DigitsLength(v: nat, n: nat)
    requires v < Pow10(n)
    ensures |Digits(v)| <= n
  {
    if v > 0 {
      DigitsLength(v / 10, n - 1);
    }
  }

  // ---------------------------------------------------------------------------------------------
  // Order
  // ---------------------------------------------------------------------------------------------

  /** strcmp(a, b) < 0. */
  predicate Less(a: string, b: string) {
    b != "" && (a == "" || a[0] < b[0] || (a[0] == b[0] && Less(a[1..], b[1..])))
  }

  lemma {:induction false} LessAppend(p: string, a: string, b: string)
    ensures Less(p + a, p + b) == Less(a, b)
  {
    if p == "" {
      assert p + a == a && p + b == b;
    } else {
      assert (p + a)[1..] == p[1..] + a && (p + b)[1..] == p[1..] + b;
      LessAppend(p[1..], a, b);
    }
  }

  /** A common tail does not decide between heads of equal length. */
  lemma {:induction false} LessBeforeTail(a: string, b: string, t: string)
    requires |a| == |b|
    ensures Less(a + t, b + t) <==> Less(a, b)
  {
    if a == "" {
      assert a + t == b + t == t;
      LessIrreflexive(t);
    } else {
      assert (a + t)[1..] == a[1..] + t && (b + t)[1..] == b[1..] + t;
      LessBeforeTail(a[1..], b[1..], t);
    }
  }

  lemma {:induction false} LessIrreflexive(a: string)
    ensures !Less(a, a)
  {
    if a != "" { LessIrreflexive(a[1..]); }
  }

  lemma {:induction false} LessSnoc(a: string, b: string, x: char, y: char)
    requires |a| == |b|
    ensures Less(a + [x], b + [y]) <==> Less(a, b) || (a == b && x < y)
  {
    if a == "" {
      assert (a + [x])[1..] == "" && (b + [y])[1..] == "";
    } else {
      assert (a + [x])[1..] == a[1..] + [x] && (b + [y])[1..] == b[1..] + [y];
      LessSnoc(a[1..], b[1..], x, y);
      assert a == [a[0]] + a[1..] && b == [b[0]] + b[1..];
    }
  }

  /** Ten times a number and a digit determine both. */
  lemma LastDigit(x: nat, c: char, y: nat, d: char)
    requires IsDigit(c) && IsDigit(d) && 10 * x + DigitValue(c) == 10 * y + DigitValue(d)
    ensures x == y && c == d
  {
    assert 10 * (x - y) == DigitValue(d) - DigitValue(c);
  }

  lemma {:induction false} NumberInjective(a: string, b: string)
    requires |a| == |b| && AllDigits(a) && AllDigits(b) && Number(a) == Number(b)
    ensures a == b
  {
    hide DigitValue;
    if a != "" {
      var n := |a| - 1;
      LastDigit(Number(a[..n]), a[n], Number(b[..n]), b[n]);
      NumberInjective(a[..n], b[..n]);
      assert a == a[..n] + [a[n]] && b == b[..n] + [b[n]];
    }
  }

  /** Digit strings of equal length sort as the numbers they denote. */
  lemma {:induction false} DigitsSortAsNumbers(a: string, b: string)
    requires |a| == |b| && AllDigits(a) && AllDigits(b)
    ensures Less(a, b) <==> Number(a) < Number(b)
  {
    if a != "" {
      var n := |a| - 1;
      DigitsSortAsNumbers(a[..n], b[..n]);
      LessSnoc(a[..n], b[..n], a[n], b[n]);
      assert a == a[..n] + [a[n]] && b == b[..n] + [b[n]];
      if Number(a[..n]) == Number(b[..n]) {
        NumberInjective(a[..n], b[..n]);
      }
    }
  }

  // ---------------------------------------------------------------------------------------------
  // Separated fields
  // ---------------------------------------------------------------------------------------------

  const SEPARATOR: char := ','

  function Join(fields: seq<string>): string {
    if fields == [] then ""
    else if |fields| == 1 then fields[0]
    else fields[0] + [SEPARATOR] + Join(fields[1..])
  }

  /** The first field and, after a separator, the rest. */
  function Split(s: string): (fields: seq<string>)
    ensures fields != []
    decreases |s|
  {
    var n := FieldLength(s);
    if n == |s| then [s] else [s[..n]] + Split(s[n + 1..])
  }

  function FieldLength(s: string): (n: nat)
    ensures n <= |s| && (n < |s| ==> s[n] == SEPARATOR) && SEPARATOR !in s[..n]
  {
    if s == "" || s[0] == SEPARATOR then 0 else 1 + FieldLength(s[1..])
  }

  lemma {:induction false} FieldLengthOf(f: string, rest: string)
    requires SEPARATOR !in f
    ensures FieldLength(f) == |f| && FieldLength(f + [SEPARATOR] + rest) == |f|
  {
    if f != "" {
      assert (f + [SEPARATOR] + rest)[1..] == f[1..] + [SEPARATOR] + rest;
      FieldLengthOf(f[1..], rest);
    }
  }

  /** Splitting a joined record gives back its fields, however many are empty. */
  lemma {:induction false} SplitJoin(fields: seq<string>)
    requires fields != [] && forall i :: 0 <= i < |fields| ==> SEPARATOR !in fields[i]
    ensures Split(Join(fields)) == fields
  {
    var f := fields[0];
    if |fields| == 1 {
      FieldLengthOf(f, "");
    } else {
      var rest := Join(fields[1..]);
      FieldLengthOf(f, rest);
      SplitJoin(fields[1..]);
      var s := f + [SEPARATOR] + rest;
      assert s[..|f|] == f && s[|f| + 1..] == rest;
    }
  }

  lemma {:induction false} JoinSnoc(fields: seq<string>, f: string)
    requires fields != []
    ensures Join(fields + [f]) == Join(fields) + [SEPARATOR] + f
  {
    assert (fields + [f])[1..] == fields[1..] + [f];
    if |fields| > 1 {
      JoinSnoc(fields[1..], f);
    }
  }

  function TotalLength(fields: seq<string>): nat {
    if fields == [] then 0 else |fields[0]| + TotalLength(fields[1..])
  }

  lemma {:induction false} JoinLength(fields: seq<string>)
    requires fields != []
    ensures |Join(fields)| == TotalLength(fields) + |fields| - 1
  {
    if |fields| > 1 { JoinLength(fields[1..]); }
  }

  /** A character of a joined record is a separator or a character of one of its fields. */
  lemma {:induction false} JoinCharacters(fields: seq<string>, c: char)
    requires c != SEPARATOR && forall i :: 0 <= i < |fields| ==> c !in fields[i]
    ensures c !in Join(fields)
  {
    if |fields| > 1 { JoinCharacters(fields[1..], c); }
  }
}
