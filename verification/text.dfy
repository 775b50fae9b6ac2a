/** Decimal rendering of the integers the lottery stores, the way JavaScript's
    `String(n)`, `Number.prototype.toString()` and `Array.prototype.join('')`
    render them (for integers below 10^21, where no exponent is used). */
module Text {

  /** The character for one decimal digit. */
  function DigitChar(d: int): (c: char)
    requires 0 <= d <= 9
    ensures '0' <= c <= '9' && c as int - '0' as int == d
  {
    "0123456789"[d]
  }

  predicate IsDigitChar(c: char) {
    '0' <= c <= '9'
  }

  /** Numeric value of a digit character; the inverse of `DigitChar`. */
  function DigitValue(c: char): int
    requires IsDigitChar(c)
  {
    c as int - '0' as int
  }

  /** Shortest decimal rendering of a natural number: no leading zeros. */
  function NatToString(n: nat): (r: string)
    ensures 1 <= |r|
    ensures forall i :: 0 <= i < |r| ==> IsDigitChar(r[i])
    ensures |r| > 1 ==> r[0] != '0'
  {
    if n < 10 then [DigitChar(n)] else NatToString(n / 10) + [DigitChar(n % 10)]
  }

  /** `String(v)` for an integer: a minus sign before the magnitude. */
  function NumberToString(v: int): (r: string)
    ensures 1 <= |r|
    ensures r[0] == '-' <==> v < 0
    ensures forall i :: (if v < 0 then 1 else 0) <= i < |r| ==> IsDigitChar(r[i])
  {
    if v < 0 then "-" + NatToString(-v) else NatToString(v)
  }

  /** An optional minus sign followed by at least one digit. */
  predicate IsNumeral(s: string) {
    if |s| > 0 && s[0] == '-' then
      |s| > 1 && forall i :: 1 <= i < |s| ==> IsDigitChar(s[i])
    else
      |s| > 0 && forall i :: 0 <= i < |s| ==> IsDigitChar(s[i])
  }

  /** Reads an optionally signed decimal numeral back as an integer. */
  function ParseNumber(s: string): int
    requires IsNumeral(s)
  {
    if s[0] == '-' then 0 - (ParseDigits(s[1..]) as int) else ParseDigits(s)
  }

  /** Reads a string of digit characters back as a number. */
  function ParseDigits(s: string): nat
    requires forall i :: 0 <= i < |s| ==> IsDigitChar(s[i])
  {
    if |s| == 0 then 0 else ParseDigits(s[..|s| - 1]) * 10 + DigitValue(s[|s| - 1])
  }

  /** The decimal rendering loses nothing: reading it back gives the number. */
  lemma {:induction false} NatToStringRoundTrip(n: nat)
    ensures ParseDigits(NatToString(n)) == n
  {
    var s := NatToString(n);
    if n < 10 {
    } else {
      var p := NatToString(n / 10);
      NatToStringRoundTrip(n / 10);
      assert s[..|s| - 1] == p;
      assert DigitValue(s[|s| - 1]) == n % 10;
    }
  }

  /** Different natural numbers have different renderings. */
  lemma NatToStringInjective(m: nat, n: nat)
    requires NatToString(m) == NatToString(n)
    ensures m == n
  {
    NatToStringRoundTrip(m);
    NatToStringRoundTrip(n);
  }

  /** `String(v)` loses nothing either, negative values included. */
  lemma NumberToStringRoundTrip(v: int)
    ensures IsNumeral(NumberToString(v)) && ParseNumber(NumberToString(v)) == v
  {
    if v < 0 {
      var p := NatToString(-v);
      NatToStringRoundTrip(-v);
      assert NumberToString(v) == "-" + p;
      assert ("-" + p)[1..] == p;
      assert ParseNumber("-" + p) == 0 - ParseDigits(p);
    } else {
      NatToStringRoundTrip(v);
    }
  }

  /** Different integers, such as different clock readings, have different
      renderings. */
  lemma NumberToStringInjective(m: int, n: int)
    requires NumberToString(m) == NumberToString(n)
    ensures m == n
  {
    NumberToStringRoundTrip(m);
    NumberToStringRoundTrip(n);
  }

  /** `xs.join('')`: the renderings of the elements, concatenated with no separator. */
  function Join(xs: seq<int>): (r: string)
    ensures |xs| <= |r|
  {
    if |xs| == 0 then "" else NumberToString(xs[0]) + Join(xs[1..])
  }

  predicate AllDigits(xs: seq<int>) {
    forall i :: 0 <= i < |xs| ==> 0 <= xs[i] <= 9
  }

  /** Numbers in a draw of the lottery page. */
  const DrawLength := 5

  /** A draw as the page makes it: five numbers, each a single digit. */
  predicate IsDraw(xs: seq<int>) {
    |xs| == DrawLength && AllDigits(xs)
  }

  /** On single digits the join is one character per element. */
  lemma {:induction false} JoinOfDigits(xs: seq<int>)
    requires AllDigits(xs)
    ensures |Join(xs)| == |xs|
    ensures forall i :: 0 <= i < |xs| ==> Join(xs)[i] == DigitChar(xs[i])
  {
    if |xs| > 0 {
      JoinOfDigits(xs[1..]);
      assert Join(xs) == [DigitChar(xs[0])] + Join(xs[1..]);
    }
  }

  /** On sequences of single digits the join is a faithful key: two digit
      sequences with the same join are the same sequence. */
  lemma JoinInjectiveOnDigits(xs: seq<int>, ys: seq<int>)
    requires AllDigits(xs) && AllDigits(ys)
    requires Join(xs) == Join(ys)
    ensures xs == ys
  {
    JoinOfDigits(xs);
    JoinOfDigits(ys);
    assert |xs| == |ys|;
    forall i | 0 <= i < |xs|
      ensures xs[i] == ys[i]
    {
      assert DigitChar(xs[i]) == Join(xs)[i] == Join(ys)[i] == DigitChar(ys[i]);
    }
  }

  /** With multi-digit numbers the join is not a faithful key:
      `[1, 23]` and `[12, 3]` both render as "123". */
  lemma JoinCollides()
    ensures [1, 23] != [12, 3]
    ensures Join([1, 23]) == Join([12, 3]) == "123"
  {
    assert [1, 23][0] != [12, 3][0];
    assert NatToString(23) == "23";
    assert NatToString(12) == "12";
  }
}
