/** Calendar dates in the `YYYY-MM-DD` form with a four-digit year, which
    `toISOString().split('T')[0]` produces for the years 0000-9999 and an HTML
    date input for the years 0001-9999, and the two orders the task view puts
    on them: JavaScript's `<` on strings (code unit by code unit) and the
    order of the `Date` values they parse to. */
module IsoDate {

  predicate IsDigit(c: char) { '0' <= c <= '9' }

  predicate AllDigits(s: string) {
    forall i :: 0 <= i < |s| ==> IsDigit(s[i])
  }

  function DigitValue(c: char): (d: nat)
    requires IsDigit(c)
    ensures d <= 9
  {
    (c as int) - ('0' as int)
  }

  function Pow10(n: nat): (p: nat)
    ensures p >= 1
  {
    if n == 0 then 1 else 10 * Pow10(n - 1)
  }

  lemma MulMono(x: nat, y: nat, p: nat)
    requires x <= y
    ensures x * p <= y * p
  {
  }

  /** The decimal value of a digit string, most significant digit first. */
  function Num(s: string): (n: nat)
    requires AllDigits(s)
    ensures n < Pow10(|s|)
  {
    if s == [] then 0
    else
      var d, p := DigitValue(s[0]), Pow10(|s| - 1);
      var rest := Num(s[1..]);
      MulMono(d, 9, p);
      d * p + rest
  }

  predicate IsLeapYear(y: nat) {
    y % 4 == 0 && (y % 100 != 0 || y % 400 == 0)
  }

  function DaysInMonth(y: nat, m: nat): nat {
    if m == 2 then (if IsLeapYear(y) then 29 else 28)
    else if m == 4 || m == 6 || m == 9 || m == 11 then 30
    else 31
  }

  /** The shape `DDDD-DD-DD`, D a decimal digit. */
  predicate IsDateShape(s: string) {
    && |s| == 10
    && IsDigit(s[0]) && IsDigit(s[1]) && IsDigit(s[2]) && IsDigit(s[3]) && s[4] == '-'
    && IsDigit(s[5]) && IsDigit(s[6]) && s[7] == '-'
    && IsDigit(s[8]) && IsDigit(s[9])
  }

  /** The year, month and day fields of a `YYYY-MM-DD` string. */
  function Year(s: string): nat
    requires IsDateShape(s)
  {
    1000 * DigitValue(s[0]) + 100 * DigitValue(s[1]) + 10 * DigitValue(s[2]) + DigitValue(s[3])
  }

  function Month(s: string): nat
    requires IsDateShape(s)
  {
    10 * DigitValue(s[5]) + DigitValue(s[6])
  }

  function Day(s: string): nat
    requires IsDateShape(s)
  {
    10 * DigitValue(s[8]) + DigitValue(s[9])
  }

  /** A well-formed, zero-padded calendar date `YYYY-MM-DD`. */
  predicate IsIsoDate(s: string) {
    && IsDateShape(s)
    && 1 <= Month(s) <= 12
    && 1 <= Day(s) <= DaysInMonth(Year(s), Month(s))
  }

  /** A number that orders valid dates exactly as their `Date` time values do:
      the difference of two keys has the sign of `new Date(a) - new Date(b)`.
      Strings that are not dates all get key 0. */
  function DateKey(s: string): (k: int)
    ensures IsIsoDate(s) ==> Year(s) * 10000 + 101 <= k <= Year(s) * 10000 + 1231
    ensures !IsIsoDate(s) ==> k == 0
  {
    if IsIsoDate(s) then Year(s) * 10000 + Month(s) * 100 + Day(s) else 0
  }

  lemma NumOfTwo(x: string)
    requires |x| == 2 && AllDigits(x)
    ensures Num(x) == 10 * DigitValue(x[0]) + DigitValue(x[1])
  {
    assert x[1..][1..] == [];
  }

  lemma NumOfFour(x: string)
    requires |x| == 4 && AllDigits(x)
    ensures Num(x) == 1000 * DigitValue(x[0]) + 100 * DigitValue(x[1]) + 10 * DigitValue(x[2]) + DigitValue(x[3])
  {
    var y := x[1..];
    assert y[1..] == x[2..];
    NumOfTwo(x[2..]);
    assert Pow10(2) == 100 && Pow10(3) == 1000;
    assert Num(y) == DigitValue(y[0]) * 100 + Num(x[2..]);
    assert Num(x) == DigitValue(x[0]) * 1000 + Num(y);
  }

  /** JavaScript's `a < b` on strings: lexicographic, a proper prefix first.
      No string is below itself. */
  predicate StrLess(a: string, b: string): (r: bool)
    ensures r ==> a != b
    ensures |a| < |b| && a == b[..|a|] ==> r
  {
    if b == [] then false
    else if a == [] then true
    else if a[0] == b[0] then StrLess(a[1..], b[1..])
    else a[0] < b[0]
  }

  lemma {:induction false} StrLessAsymmetric(a: string, b: string)
    requires StrLess(a, b)
    ensures !StrLess(b, a)
  {
    if a != [] && a[0] == b[0] {
      StrLessAsymmetric(a[1..], b[1..]);
    }
  }

  lemma {:induction false} StrLessTransitive(a: string, b: string, c: string)
    requires StrLess(a, b) && StrLess(b, c)
    ensures StrLess(a, c)
  {
    if a != [] && a[0] == b[0] && b[0] == c[0] {
      StrLessTransitive(a[1..], b[1..], c[1..]);
    }
  }

  /** Two different strings are always ordered one way or the other. */
  lemma {:induction false} StrLessTotal(a: string, b: string)
    ensures a == b || StrLess(a, b) || StrLess(b, a)
  {
    if a != [] && b != [] && a[0] == b[0] {
      StrLessTotal(a[1..], b[1..]);
      if a[1..] == b[1..] {
        assert a == [a[0]] + a[1..] && b == [b[0]] + b[1..];
      }
    }
  }

  /** Comparing concatenations whose first parts have equal length compares
      the first parts, and the second parts only when the first are equal. */
  lemma {:induction false} StrLessAppend(x: string, u: string, y: string, v: string)
    requires |x| == |y|
    ensures StrLess(x + u, y + v) == (StrLess(x, y) || (x == y && StrLess(u, v)))
  {
    if x == [] {
      assert x + u == u && y + v == v;
    } else {
      assert (x + u)[0] == x[0] && (y + v)[0] == y[0];
      assert (x + u)[1..] == x[1..] + u && (y + v)[1..] == y[1..] + v;
      StrLessAppend(x[1..], u, y[1..], v);
      if x[0] == y[0] {
        assert (x[1..] == y[1..]) == (x == y) by {
          assert x == [x[0]] + x[1..] && y == [y[0]] + y[1..];
        }
      }
    }
  }

  /** A smaller leading digit outweighs whatever follows it. */
  lemma LeadingDigitDominates(da: nat, db: nat, p: nat, ra: nat, rb: nat)
    requires da < db && ra < p
    ensures da * p + ra < db * p + rb
  {
    MulMono(da + 1, db, p);
    assert (da + 1) * p == da * p + p;
  }

  /** The value of a digit string: its leading digit's weight plus the rest. */
  lemma NumHead(s: string)
    requires s != [] && AllDigits(s)
    ensures Num(s) == DigitValue(s[0]) * Pow10(|s| - 1) + Num(s[1..])
  {
  }

  /** Two non-empty strings compare by their heads, then by their tails. */
  lemma StrLessHead(a: string, b: string)
    requires a != [] && b != []
    ensures StrLess(a, b) == if a[0] == b[0] then StrLess(a[1..], b[1..]) else a[0] < b[0]
    ensures (a == b) == (a[0] == b[0] && a[1..] == b[1..])
  {
    assert a == [a[0]] + a[1..] && b == [b[0]] + b[1..];
  }

  /** For digit strings of one length, string order is numeric order. */
  lemma {:induction false} StrLessIsNumLess(a: string, b: string)
    requires |a| == |b| && AllDigits(a) && AllDigits(b)
    ensures StrLess(a, b) == (Num(a) < Num(b))
    ensures (a == b) == (Num(a) == Num(b))
  {
    if a != [] {
      var p := Pow10(|a| - 1);
      var da, db := DigitValue(a[0]), DigitValue(b[0]);
      var ra, rb := Num(a[1..]), Num(b[1..]);
      NumHead(a);
      NumHead(b);
      StrLessHead(a, b);
      if a[0] == b[0] {
        StrLessIsNumLess(a[1..], b[1..]);
      } else if a[0] < b[0] {
        LeadingDigitDominates(da, db, p, ra, rb);
      } else {
        LeadingDigitDominates(db, da, p, rb, ra);
      }
    }
  }

  /** On valid dates, JavaScript's string `<` (the due-date classifier) and
      the `Date` order (the sort comparator) agree, and so does equality. */
  lemma DateOrderAgrees(a: string, b: string)
    requires IsIsoDate(a) && IsIsoDate(b)
    ensures StrLess(a, b) == (DateKey(a) < DateKey(b))
    ensures (a == b) == (DateKey(a) == DateKey(b))
  {
    var ya, ma, da := a[0..4], a[5..7], a[8..10];
    var yb, mb, db := b[0..4], b[5..7], b[8..10];
    assert AllDigits(ya) && AllDigits(ma) && AllDigits(da) by {
      assert ya[0] == a[0] && ya[1] == a[1] && ya[2] == a[2] && ya[3] == a[3];
      assert ma[0] == a[5] && ma[1] == a[6] && da[0] == a[8] && da[1] == a[9];
    }
    assert AllDigits(yb) && AllDigits(mb) && AllDigits(db) by {
      assert yb[0] == b[0] && yb[1] == b[1] && yb[2] == b[2] && yb[3] == b[3];
      assert mb[0] == b[5] && mb[1] == b[6] && db[0] == b[8] && db[1] == b[9];
    }
    assert a == ya + ([a[4]] + (ma + ([a[7]] + da)));
    assert b == yb + ([b[4]] + (mb + ([b[7]] + db)));
    StrLessAppend(ya, [a[4]] + (ma + ([a[7]] + da)), yb, [b[4]] + (mb + ([b[7]] + db)));
    StrLessAppend([a[4]], ma + ([a[7]] + da), [b[4]], mb + ([b[7]] + db));
    StrLessAppend(ma, [a[7]] + da, mb, [b[7]] + db);
    StrLessAppend([a[7]], da, [b[7]], db);
    StrLessIsNumLess(ya, yb);
    StrLessIsNumLess(ma, mb);
    StrLessIsNumLess(da, db);
    NumOfFour(ya);
    NumOfFour(yb);
    NumOfTwo(ma);
    NumOfTwo(mb);
    NumOfTwo(da);
    NumOfTwo(db);
    DateKeyLexicographic(Num(ya), Num(ma), Num(da), Num(yb), Num(mb), Num(db));
  }

  /** Keys built as y * 10000 + m * 100 + d with two-digit m and d compare
      year first, then month, then day. */
  lemma DateKeyLexicographic(y1: nat, m1: nat, d1: nat, y2: nat, m2: nat, d2: nat)
    requires m1 < 100 && d1 < 100 && m2 < 100 && d2 < 100
    ensures (y1 * 10000 + m1 * 100 + d1 < y2 * 10000 + m2 * 100 + d2)
         == (y1 < y2 || (y1 == y2 && (m1 < m2 || (m1 == m2 && d1 < d2))))
    ensures (y1 * 10000 + m1 * 100 + d1 == y2 * 10000 + m2 * 100 + d2)
         == (y1 == y2 && m1 == m2 && d1 == d2)
  {
    if y1 < y2 {
      MulMono(y1 + 1, y2, 10000);
    } else if y2 < y1 {
      MulMono(y2 + 1, y1, 10000);
    } else if m1 < m2 {
      MulMono(m1 + 1, m2, 100);
    } else if m2 < m1 {
      MulMono(m2 + 1, m1, 100);
    }
  }

}
