/**
  Small text utilities shared by the model: the decimal rendering of a
  natural number (what a JavaScript template literal produces for a
  non-negative integer) and joining a list of strings with a separator.
 */
module Text {

  predicate IsDigit(c: char) {
    '0' <= c <= '9'
  }

  /** True iff no character of `s` is a decimal digit. */
  predicate DigitFree(s: string) {
    forall i :: 0 <= i < |s| ==> !IsDigit(s[i])
  }

  function Digit(d: nat): (c: char)
    requires d < 10
    ensures IsDigit(c)
  {
    (d + '0' as int) as char
  }

  /** Decimal text of `n`, most significant digit first, no leading zero. */
  function IntText(n: nat): (s: string)
    ensures 0 < |s|
    ensures forall i :: 0 <= i < |s| ==> IsDigit(s[i])
    ensures n < 10 <==> |s| == 1
    decreases n
  {
    if n < 10 then [Digit(n)] else IntText(n / 10) + [Digit(n % 10)]
  }

  /** Different numbers have different decimal texts. */
  lemma {:induction false} IntTextInjective(a: nat, b: nat)
    requires IntText(a) == IntText(b)
    ensures a == b
    decreases a
  {
    if a < 10 || b < 10 {
      assert |IntText(a)| == 1 && |IntText(b)| == 1;
      assert Digit(a) == IntText(a)[0] == IntText(b)[0] == Digit(b);
    } else {
      var sa, sb := IntText(a), IntText(b);
      assert sa[|sa| - 1] == Digit(a % 10);
      assert sb[|sb| - 1] == Digit(b % 10);
      assert a % 10 == b % 10;
      assert sa[..|sa| - 1] == IntText(a / 10);
      assert sb[..|sb| - 1] == IntText(b / 10);
      IntTextInjective(a / 10, b / 10);
    }
  }

  /** `parts` separated by `sep`, with no separator before the first or after the last part. */
  function Join(parts: seq<string>, sep: string): string
  {
    if |parts| == 0 then ""
    else if |parts| == 1 then parts[0]
    else parts[0] + sep + Join(parts[1..], sep)
  }

  /** Appending one part to a joined list adds a separator only when the list was not empty. */
  lemma {:induction false} JoinSnoc(parts: seq<string>, last: string, sep: string)
    ensures Join(parts + [last], sep)
         == if |parts| == 0 then last else Join(parts, sep) + sep + last
  {
    if |parts| > 1 {
      assert (parts + [last])[1..] == parts[1..] + [last];
      JoinSnoc(parts[1..], last, sep);
    }
  }

  /**
    A digit-free prefix followed by a non-empty run of digits splits in
    exactly one way: equal texts have equal prefixes and equal digit runs.
   */
  lemma SplitAtDigits(p: string, d: string, q: string, e: string)
    requires DigitFree(p) && DigitFree(q)
    requires 0 < |d| && forall i :: 0 <= i < |d| ==> IsDigit(d[i])
    requires 0 < |e| && forall i :: 0 <= i < |e| ==> IsDigit(e[i])
    requires p + d == q + e
    ensures p == q && d == e
  {
    var s := p + d;
    assert forall i :: 0 <= i < |p| ==> !IsDigit(s[i]);
    assert forall i :: 0 <= i < |q| ==> !IsDigit(s[i]);
    assert IsDigit(s[|p|]) && IsDigit(s[|q|]);
    assert p == (p + d)[..|p|] == (q + e)[..|q|] == q;
    assert d == (p + d)[|p|..] == (q + e)[|q|..] == e;
  }
}
