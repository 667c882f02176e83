/** Strings: the two-bar separator, lexicographic order, and zero-padded decimals. */
module Text {
  import opened Outcomes

  const KEY_SEP := "||"

  /******* The separator *******/

  predicate SepAt(s: string, i: int) {
    0 <= i < |s| - 1 && s[i] == '|' && s[i + 1] == '|'
  }

  ghost predicate HasSep(s: string) {
    exists i :: SepAt(s, i)
  }

  // The position of the first separator, or -1.
  function FirstSep(s: string): (r: int)
    ensures r >= 0 ==> SepAt(s, r) && forall j :: SepAt(s, j) ==> r <= j
    ensures r < 0 ==> r == -1 && !HasSep(s)
  {
    if |s| < 2 then -1
    else if s[0] == '|' && s[1] == '|' then 0
    else
      var rest := FirstSep(s[1..]);
      assert forall j :: SepAt(s, j) ==> SepAt(s[1..], j - 1);
      if rest < 0 then -1 else rest + 1
  }

  predicate EndsWithBar(s: string) {
    |s| > 0 && s[|s| - 1] == '|'
  }

  predicate StartsWithBar(s: string) {
    |s| > 0 && s[0] == '|'
  }

  // A separator-free text in front of a separator: the first separator is the one put there, or
  // one position earlier when the text ends with a bar.
  lemma FirstSepAfter(s: string, rest: string)
    requires !HasSep(s)
    ensures FirstSep(s + KEY_SEP + rest) == if EndsWithBar(s) then |s| - 1 else |s|
  {
    var w := s + KEY_SEP + rest;
    var i := if EndsWithBar(s) then |s| - 1 else |s|;
    assert SepAt(w, i);
    assert forall j :: SepAt(w, j) && j < |s| - 1 ==> SepAt(s, j);
  }

  /******* Lexicographic order *******/

  predicate LexLess(a: string, b: string) {
    if |b| == 0 then false
    else if |a| == 0 then true
    else a[0] < b[0] || (a[0] == b[0] && LexLess(a[1..], b[1..]))
  }

  lemma {:induction false} LexCommonPrefix(p: string, a: string, b: string)
    ensures LexLess(p + a, p + b) <==> LexLess(a, b)
  {
    if p == "" {
      assert p + a == a && p + b == b;
    } else {
      assert (p + a)[1..] == p[1..] + a && (p + b)[1..] == p[1..] + b;
      LexCommonPrefix(p[1..], a, b);
    }
  }

  lemma {:induction false} LexLastCharacter(a: string, b: string, x: char, y: char)
    requires |a| == |b|
    ensures LexLess(a + [x], b + [y]) <==> LexLess(a, b) || (a == b && x < y)
  {
    if a == "" {
    } else {
      assert (a + [x])[1..] == a[1..] + [x] && (b + [y])[1..] == b[1..] + [y];
      assert a == b <==> a[0] == b[0] && a[1..] == b[1..];
      LexLastCharacter(a[1..], b[1..], x, y);
    }
  }

  lemma {:induction false} LexTotal(a: string, b: string)
    ensures a == b || LexLess(a, b) || LexLess(b, a)
    ensures !(LexLess(a, b) && LexLess(b, a))
  {
    if |a| > 0 && |b| > 0 {
      LexTotal(a[1..], b[1..]);
      if a[0] == b[0] && a[1..] == b[1..] {
        assert a == [a[0]] + a[1..] && b == [b[0]] + b[1..];
      }
    }
  }

  lemma {:induction false} LexTransitive(a: string, b: string, c: string)
    requires LexLess(a, b) && LexLess(b, c)
    ensures LexLess(a, c)
  {
    if |a| > 0 && a[0] == b[0] && b[0] == c[0] {
      LexTransitive(a[1..], b[1..], c[1..]);
    }
  }

  /******* Decimals *******/

  function Digit(d: nat): char
    requires d < 10
  {
    ['0', '1', '2', '3', '4', '5', '6', '7', '8', '9'][d]
  }

  // The shortest decimal form of n.
  function Decimal(n: nat): string {
    if n < 10 then [Digit(n)] else Decimal(n / 10) + [Digit(n % 10)]
  }

  // Padding on the left with zeros, as the format `{:020}` does; longer texts are left alone.
  function ZeroPad(s: string, width: nat): string
    decreases width - |s|
  {
    if |s| >= width then s else ZeroPad("0" + s, width)
  }

  function Pow10(w: nat): nat {
    if w == 0 then 1 else 10 * Pow10(w - 1)
  }

  // Exactly w digits.
  function FixedDigits(n: nat, w: nat): (s: string)
    ensures |s| == w
  {
    if w == 0 then "" else FixedDigits(n / 10, w - 1) + [Digit(n % 10)]
  }

  lemma {:induction false} ZeroPadAppend(s: string, c: char, w: nat)
    requires |s| <= w
    ensures ZeroPad(s + [c], w + 1) == ZeroPad(s, w) + [c]
    decreases w - |s|
  {
    if |s| < w {
      assert "0" + (s + [c]) == ("0" + s) + [c];
      ZeroPadAppend("0" + s, c, w);
    }
  }

  lemma {:induction false} ZerosPad(w: nat)
    requires w >= 1
    ensures FixedDigits(0, w) == ZeroPad("0", w)
  {
    if w == 1 {
      assert FixedDigits(0, 0) == "";
    } else {
      ZerosPad(w - 1);
      ZeroPadAppend("", '0', w - 1);
      assert "" + ['0'] == "0" && "0" + "" == "0";
      assert ZeroPad("", w - 1) == ZeroPad("0", w - 1);
    }
  }

  // Padding the decimal form gives exactly w digits whenever the number has at most w digits.
  lemma {:induction false} PadIsFixed(n: nat, w: nat)
    requires w >= 1 && n < Pow10(w)
    ensures ZeroPad(Decimal(n), w) == FixedDigits(n, w)
    ensures |Decimal(n)| <= w
  {
    if n < 10 {
      if w == 1 {
        assert FixedDigits(n / 10, 0) == "";
      } else {
        ZerosPad(w - 1);
        ZeroPadAppend("", Digit(n), w - 1);
        assert "" + [Digit(n)] == Decimal(n) && "0" + "" == "0";
        assert ZeroPad("", w - 1) == ZeroPad("0", w - 1);
      }
    } else {
      PadIsFixed(n / 10, w - 1);
      ZeroPadAppend(Decimal(n / 10), Digit(n % 10), w - 1);
    }
  }

  function DigitValue(c: char): int {
    if '0' <= c <= '9' then c as int - '0' as int else -1
  }

  // The number a text of digits stands for, or -1 if some character is not a digit.
  function Number(s: string): (n: int)
    ensures n >= -1
  {
    if s == "" then 0
    else
      var high, d := Number(s[..|s| - 1]), DigitValue(s[|s| - 1]);
      if high < 0 || d < 0 then -1 else 10 * high + d
  }

  lemma DigitRoundTrip(d: nat)
    requires d < 10
    ensures DigitValue(Digit(d)) == d
  {
  }

  lemma {:induction false} NumberOfFixed(n: nat, w: nat)
    requires n < Pow10(w)
    ensures Number(FixedDigits(n, w)) == n
  {
    if w > 0 {
      var s := FixedDigits(n, w);
      assert s[..w - 1] == FixedDigits(n / 10, w - 1) && s[w - 1] == Digit(n % 10);
      NumberOfFixed(n / 10, w - 1);
      DigitRoundTrip(n % 10);
    }
  }

  lemma {:induction false} FixedOfNumber(s: string)
    requires Number(s) >= 0
    ensures Number(s) < Pow10(|s|) && FixedDigits(Number(s), |s|) == s
  {
    if s != "" {
      FixedOfNumber(s[..|s| - 1]);
      var high, d := Number(s[..|s| - 1]), DigitValue(s[|s| - 1]);
      assert (10 * high + d) / 10 == high && (10 * high + d) % 10 == d;
      assert s == s[..|s| - 1] + [s[|s| - 1]];
    }
  }

  // Among texts of w digits, lexicographic order is numeric order.
  lemma {:induction false} FixedOrder(m: nat, n: nat, w: nat)
    requires m < Pow10(w) && n < Pow10(w)
    ensures LexLess(FixedDigits(m, w), FixedDigits(n, w)) <==> m < n
    decreases w
  {
    if w > 0 {
      FixedOrder(m / 10, n / 10, w - 1);
      FixedOrder(n / 10, m / 10, w - 1);
      LexTotal(FixedDigits(m / 10, w - 1), FixedDigits(n / 10, w - 1));
      LexLastCharacter(FixedDigits(m / 10, w - 1), FixedDigits(n / 10, w - 1), Digit(m % 10), Digit(n % 10));
    }
  }
}
