/** Python's ordering on `str` (code point by code point, a proper prefix
    first), and zero-padded decimal rendering of the kind `%02d` / `%04d`
    produce. The back end compares wall-clock times and ISO dates as strings,
    which agrees with numeric order only for fixed-width zero-padded text; the
    lemmas here state exactly that. */
module Lex {

  /** Python's `a < b` on strings. */
  predicate LexLt(a: string, b: string)
  {
    if |b| == 0 then false
    else if |a| == 0 then true
    else if a[0] != b[0] then a[0] < b[0]
    else LexLt(a[1..], b[1..])
  }

  /** Python's `a <= b` on strings, defined as `not (b < a)`. */
  predicate LexLe(a: string, b: string)
  {
    !LexLt(b, a)
  }

  lemma {:induction false} LexLtIrreflexive(a: string)
    ensures !LexLt(a, a)
    decreases |a|
  {
    if |a| > 0 {
      LexLtIrreflexive(a[1..]);
    }
  }

  lemma {:induction false} LexLtTransitive(a: string, b: string, c: string)
    requires LexLt(a, b) && LexLt(b, c)
    ensures LexLt(a, c)
    decreases |a|
  {
    if |a| > 0 && a[0] == b[0] && b[0] == c[0] {
      LexLtTransitive(a[1..], b[1..], c[1..]);
    }
  }

  /** Any two strings are equal or ordered one way round. */
  lemma {:induction false} LexTrichotomy(a: string, b: string)
    ensures LexLt(a, b) || a == b || LexLt(b, a)
    decreases |a|
  {
    if |a| > 0 && |b| > 0 && a[0] == b[0] {
      LexTrichotomy(a[1..], b[1..]);
      if a[1..] == b[1..] {
        assert a == [a[0]] + a[1..] && b == [b[0]] + b[1..];
      }
    }
  }

  lemma LexLtAsymmetric(a: string, b: string)
    requires LexLt(a, b)
    ensures !LexLt(b, a)
  {
    if LexLt(b, a) {
      LexLtTransitive(a, b, a);
      LexLtIrreflexive(a);
    }
  }

  /** `<=` is `<` or equality, so Python's `>=` on strings is the reflexive closure of `>`. */
  lemma LexLeIff(a: string, b: string)
    ensures LexLe(a, b) <==> LexLt(a, b) || a == b
  {
    LexTrichotomy(a, b);
    if a == b {
      LexLtIrreflexive(a);
    } else if LexLt(a, b) {
      LexLtAsymmetric(a, b);
    }
  }

  lemma LexLeTransitive(a: string, b: string, c: string)
    requires LexLe(a, b) && LexLe(b, c)
    ensures LexLe(a, c)
  {
    LexLeIff(a, b);
    LexLeIff(b, c);
    LexLeIff(a, c);
    if LexLt(a, b) && LexLt(b, c) {
      LexLtTransitive(a, b, c);
    }
  }

  /** Any two strings are ordered one way round by `<=`. */
  lemma LexLeTotal(a: string, b: string)
    ensures LexLe(a, b) || LexLe(b, a)
  {
    LexTrichotomy(a, b);
    LexLeIff(a, b);
    LexLeIff(b, a);
  }

  /** Comparing two concatenations whose first parts have equal length compares
      the first parts, and the second parts only when the first parts agree. */
  lemma {:induction false} LexLtAppend(x: string, y: string, u: string, v: string)
    requires |x| == |u|
    ensures LexLt(x + y, u + v) <==> LexLt(x, u) || (x == u && LexLt(y, v))
    decreases |x|
  {
    if |x| == 0 {
      assert x + y == y && u + v == v;
    } else {
      assert (x + y)[0] == x[0] && (u + v)[0] == u[0];
      assert (x + y)[1..] == x[1..] + y && (u + v)[1..] == u[1..] + v;
      LexLtAppend(x[1..], y, u[1..], v);
      if x[0] == u[0] && x[1..] == u[1..] {
        assert x == u;
      }
      if x == u {
        assert x[1..] == u[1..];
      }
    }
  }

  /** The ASCII character of a decimal digit. */
  function Digit(d: int): (c: char)
    requires 0 <= d < 10
    ensures '0' <= c <= '9'
  {
    (48 + d) as char
  }

  function Pow10(w: nat): (r: nat)
    ensures r >= 1
  {
    if w == 0 then 1 else 10 * Pow10(w - 1)
  }

  /** `n` rendered in exactly `w` decimal digits, left-padded with zeros (`%0wd`). */
  function Pad(n: nat, w: nat): (r: string)
    requires n < Pow10(w)
    ensures |r| == w
    ensures forall i :: 0 <= i < |r| ==> '0' <= r[i] <= '9'
  {
    if w == 0 then [] else Pad(n / 10, w - 1) + [Digit(n % 10)]
  }

  lemma DecimalSplit(a: nat, b: nat)
    ensures a < b <==> a / 10 < b / 10 || (a / 10 == b / 10 && a % 10 < b % 10)
  {
    assert a == 10 * (a / 10) + a % 10;
    assert b == 10 * (b / 10) + b % 10;
  }

  /** Zero-padded numbers of the same width compare as strings exactly as they compare as numbers. */
  lemma {:induction false} PadOrder(a: nat, b: nat, w: nat)
    requires a < Pow10(w) && b < Pow10(w)
    ensures LexLt(Pad(a, w), Pad(b, w)) <==> a < b
    ensures Pad(a, w) == Pad(b, w) <==> a == b
    decreases w
  {
    if w == 0 {
      assert Pow10(0) == 1;
    } else {
      assert a / 10 < Pow10(w - 1) && b / 10 < Pow10(w - 1);
      PadOrder(a / 10, b / 10, w - 1);
      var x, u := Pad(a / 10, w - 1), Pad(b / 10, w - 1);
      var y, v := [Digit(a % 10)], [Digit(b % 10)];
      LexLtAppend(x, y, u, v);
      DecimalSplit(a, b);
      DecimalSplit(b, a);
      assert LexLt(y, v) <==> a % 10 < b % 10;
      if Pad(a, w) == Pad(b, w) {
        assert x == Pad(a, w)[..w - 1] == Pad(b, w)[..w - 1] == u;
        assert y[0] == Pad(a, w)[w - 1] == Pad(b, w)[w - 1] == v[0];
        assert a == 10 * (a / 10) + a % 10;
        assert b == 10 * (b / 10) + b % 10;
      }
    }
  }
}
