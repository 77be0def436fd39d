/**
 * String helpers the library relies on implicitly: JavaScript's rendering of a
 * non-negative integer inside `'data[' + i + ']'`, and `Array.prototype.toString`,
 * which joins a path's node identifiers with commas.  Each rendering comes with
 * its inverse and a round-trip lemma.
 */
module Text {

  predicate IsDigit(c: char) {
    '0' <= c <= '9'
  }

  predicate AllDigits(s: string) {
    forall k :: 0 <= k < |s| ==> IsDigit(s[k])
  }

  function DigitChar(d: nat): char
    requires d < 10
  {
    "0123456789"[d]
  }

  /** Decimal rendering of a natural number, without leading zeros. */
  function Decimal(n: nat): (s: string)
    ensures |s| >= 1 && AllDigits(s)
    ensures |s| > 1 ==> s[0] != '0'
  {
    if n < 10 then [DigitChar(n)] else Decimal(n / 10) + [DigitChar(n % 10)]
  }

  /** Value of a string of decimal digits (the empty string reads as 0). */
  function ParseDecimal(s: string): nat
    requires AllDigits(s)
  {
    if |s| == 0 then 0
    else ParseDecimal(s[..|s| - 1]) * 10 + (s[|s| - 1] as int - '0' as int)
  }

  lemma {:induction false} DecimalRoundTrip(n: nat)
    ensures ParseDecimal(Decimal(n)) == n
  {
    if n >= 10 {
      var s := Decimal(n);
      assert s[..|s| - 1] == Decimal(n / 10);
      DecimalRoundTrip(n / 10);
    }
  }

  /** The longest prefix of `s` made of decimal digits. */
  function DigitRun(s: string): (r: string)
    ensures AllDigits(r)
  {
    if |s| > 0 && IsDigit(s[0]) then [s[0]] + DigitRun(s[1..]) else []
  }

  lemma {:induction false} DigitRunOfConcat(a: string, b: string)
    requires AllDigits(a)
    requires |b| > 0 && !IsDigit(b[0])
    ensures DigitRun(a + b) == a
  {
    if |a| > 0 {
      assert (a + b)[0] == a[0];
      assert (a + b)[1..] == a[1..] + b;
      DigitRunOfConcat(a[1..], b);
    } else {
      assert a + b == b;
    }
  }

  /** `Array.prototype.toString` on an array of strings: the elements joined by commas. */
  function Join(p: seq<string>): string {
    if |p| == 0 then ""
    else if |p| == 1 then p[0]
    else p[0] + "," + Join(p[1..])
  }

  /** `String.prototype.split(',')`: the comma-separated fields of `s`. */
  function Split(s: string): (r: seq<string>)
    ensures |r| >= 1
  {
    if |s| == 0 then [""]
    else
      var rest := Split(s[1..]);
      if s[0] == ',' then [""] + rest else [[s[0]] + rest[0]] + rest[1..]
  }

  predicate NoComma(x: string) {
    ',' !in x
  }

  /** A non-empty sequence of identifiers none of which contains a comma. */
  predicate CommaFree(p: seq<string>) {
    |p| >= 1 && forall k :: 0 <= k < |p| ==> NoComma(p[k])
  }

  lemma {:induction false} SplitCommaFree(x: string, t: string)
    requires NoComma(x)
    ensures Split(x + t) == [x + Split(t)[0]] + Split(t)[1..]
  {
    if |x| > 0 {
      assert (x + t)[0] == x[0];
      assert (x + t)[1..] == x[1..] + t;
      SplitCommaFree(x[1..], t);
      assert [x[0]] + (x[1..] + Split(t)[0]) == x + Split(t)[0];
    } else {
      assert x + t == t;
      assert x + Split(t)[0] == Split(t)[0];
      assert [Split(t)[0]] + Split(t)[1..] == Split(t);
    }
  }

  /**
   * A non-empty path whose identifiers contain no comma is recovered from its
   * joined rendering; this is what makes the 'string' result format readable.
   */
  lemma {:induction false} SplitJoin(p: seq<string>)
    requires |p| >= 1
    requires forall k :: 0 <= k < |p| ==> NoComma(p[k])
    ensures Split(Join(p)) == p
  {
    if |p| == 1 {
      SplitCommaFree(p[0], "");
      assert p[0] + "" == p[0];
    } else {
      var j := Join(p[1..]);
      SplitJoin(p[1..]);
      assert Join(p) == p[0] + ("," + j);
      SplitCommaFree(p[0], "," + j);
      assert ("," + j)[0] == ',' && ("," + j)[1..] == j;
      assert Split("," + j) == [""] + Split(j);
      assert p[0] + "" == p[0];
      assert [p[0]] + p[1..] == p;
    }
  }

  /** Without that restriction the rendering is ambiguous. */
  lemma JoinAmbiguous()
    ensures Join(["a,b"]) == Join(["a", "b"])
  {
  }
}
